/** Key descriptions (internal/domain/bounded_types.go): white space is trimmed at both ends, and what
    is left may be at most 255 bytes long in UTF-8. */
module Descriptions {
  import opened Domain

  const MAX_LENGTH: nat := 255

  /** White space in the sense of unicode.IsSpace. */
  predicate IsSpace(c: char) {
    var u := c as int;
    || 0x09 <= u <= 0x0d || u == 0x20 || u == 0x85 || u == 0xa0
    || u == 0x1680 || 0x2000 <= u <= 0x200a || u == 0x2028 || u == 0x2029 || u == 0x202f || u == 0x205f || u == 0x3000
  }

  /** The code points with the Unicode property White_Space. */
  lemma SpacesAre(c: char)
    ensures IsSpace(c) <==> c as int in {
      0x9, 0xa, 0xb, 0xc, 0xd, 0x20, 0x85, 0xa0, 0x1680, 0x2000, 0x2001, 0x2002, 0x2003, 0x2004, 0x2005, 0x2006, 0x2007,
      0x2008, 0x2009, 0x200a, 0x2028, 0x2029, 0x202f, 0x205f, 0x3000}
  {
  }

  function Utf8Length(c: char): nat {
    var u := c as int;
    if u < 0x80 then 1 else if u < 0x800 then 2 else if u < 0x10000 then 3 else 4
  }

  /** The `len` of a Go string. */
  function ByteLength(s: string): nat {
    if s == [] then 0 else Utf8Length(s[0]) + ByteLength(s[1..])
  }

  function TrimLeft(s: string): string {
    if s != [] && IsSpace(s[0]) then TrimLeft(s[1..]) else s
  }

  function TrimRight(s: string): string {
    if s != [] && IsSpace(s[|s| - 1]) then TrimRight(s[..|s| - 1]) else s
  }

  function TrimSpace(s: string): string { TrimRight(TrimLeft(s)) }

  function NewDescription(s: string): Option<string> {
    if ByteLength(TrimSpace(s)) > MAX_LENGTH then None else Some(TrimSpace(s))
  }

  predicate AllSpace(s: string) { forall i :: 0 <= i < |s| ==> IsSpace(s[i]) }

  /** Neither begins nor ends with white space. */
  predicate IsTight(s: string) { s != [] ==> !IsSpace(s[0]) && !IsSpace(s[|s| - 1]) }

  lemma {:induction false} DropsLeft(left: string, s: string)
    requires AllSpace(left)
    ensures TrimLeft(left + s) == TrimLeft(s)
    decreases |left|
  {
    if left == [] {
      assert left + s == s;
    } else {
      DropsLeft(left[1..], s);
      assert (left + s)[1..] == left[1..] + s;
    }
  }

  lemma {:induction false} DropsRight(s: string, right: string)
    requires AllSpace(right)
    ensures TrimRight(s + right) == TrimRight(s)
    decreases |right|
  {
    if right == [] {
      assert s + right == s;
    } else {
      DropsRight(s, right[..|right| - 1]);
      assert (s + right)[..|s + right| - 1] == s + right[..|right| - 1];
    }
  }

  /** Trimming leaves what stands between the white space at the two ends, however much there is. */
  lemma TrimsBothEnds(left: string, middle: string, right: string)
    requires AllSpace(left) && AllSpace(right) && IsTight(middle)
    ensures TrimSpace(left + middle + right) == middle
  {
    DropsLeft(left, middle + right);
    assert left + middle + right == left + (middle + right);
    if middle == [] {
      DropsLeft(right, []);
      assert middle + right == right + [];
    } else {
      DropsRight(middle, right);
    }
  }

  /** Every text splits that way. */
  lemma {:induction false} Splits(s: string) returns (left: string, middle: string, right: string)
    ensures s == left + middle + right && AllSpace(left) && AllSpace(right) && IsTight(middle)
    decreases |s|
  {
    left, middle, right := [], s, [];
    if s != [] && IsSpace(s[0]) {
      var l, m, r := Splits(s[1..]);
      left, middle, right := [s[0]] + l, m, r;
    } else if s != [] && IsSpace(s[|s| - 1]) {
      var l, m, r := Splits(s[..|s| - 1]);
      left, middle, right := l, m, r + [s[|s| - 1]];
    }
  }

  /** A description that is accepted is tight and short, and is accepted again as it is. */
  lemma AcceptedIsStable(s: string)
    requires NewDescription(s).Some?
    ensures
      var d := NewDescription(s).value;
      IsTight(d) && ByteLength(d) <= MAX_LENGTH && NewDescription(d) == Some(d)
  {
    var left, middle, right := Splits(s);
    TrimsBothEnds(left, middle, right);
    TrimsBothEnds([], middle, []);
    assert [] + middle + [] == middle;
  }

  /** A text is accepted if and only if what stands between its white space is at most 255 bytes long, and then
      that is the description. */
  lemma AcceptedIff(left: string, middle: string, right: string)
    requires AllSpace(left) && AllSpace(right) && IsTight(middle)
    ensures NewDescription(left + middle + right) == if ByteLength(middle) <= 255 then Some(middle) else None
  {
    TrimsBothEnds(left, middle, right);
  }

  /** The length in bytes adds up, is the number of characters exactly for ASCII text, and at most four times that. */
  lemma {:induction false} ByteLengthBounds(s: string)
    ensures |s| <= ByteLength(s) <= 4 * |s|
    ensures ByteLength(s) == |s| <==> forall i :: 0 <= i < |s| ==> s[i] as int < 0x80
    decreases |s|
  {
    if s != [] {
      ByteLengthBounds(s[1..]);
      assert forall i :: 1 <= i < |s| ==> s[i] == s[1..][i - 1];
      if forall i :: 0 <= i < |s| ==> s[i] as int < 0x80 {
        assert forall i :: 0 <= i < |s[1..]| ==> s[1..][i] == s[i + 1];
      }
    }
  }

  lemma {:induction false} ByteLengthAddsUp(a: string, b: string)
    ensures ByteLength(a + b) == ByteLength(a) + ByteLength(b)
    decreases |a|
  {
    if a == [] {
      assert a + b == b;
    } else {
      ByteLengthAddsUp(a[1..], b);
      assert (a + b)[1..] == a[1..] + b;
    }
  }

  /** The lengths of section 3 of RFC 3629, on the first and last code point of each. */
  lemma Utf8Lengths()
    ensures ByteLength("\U{0000}\U{007F}") == 2 && ByteLength("\U{0080}\U{07FF}") == 4
    ensures ByteLength("\U{0800}\U{FFFF}") == 6 && ByteLength("\U{10000}\U{10FFFF}") == 8
  {
    ByteLengthAddsUp("\U{0000}", "\U{007F}");
    ByteLengthAddsUp("\U{0080}", "\U{07FF}");
    ByteLengthAddsUp("\U{0800}", "\U{FFFF}");
    ByteLengthAddsUp("\U{10000}", "\U{10FFFF}");
    assert "\U{0000}" + "\U{007F}" == "\U{0000}\U{007F}" && "\U{0080}" + "\U{07FF}" == "\U{0080}\U{07FF}";
    assert "\U{0800}" + "\U{FFFF}" == "\U{0800}\U{FFFF}" && "\U{10000}" + "\U{10FFFF}" == "\U{10000}\U{10FFFF}";
  }
}
