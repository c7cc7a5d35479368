/** The value types shared by every component: key ids, key records, results.
    Times and durations are integers in nanoseconds. */
module Domain {

  datatype Option<+T> = None | Some(value: T)

  datatype Result<+T, +E> = Ok(value: T) | Err(error: E)

  newtype byte = x: int | 0 <= x < 256
  type Bytes = seq<byte>

  /** Unix time and durations, in nanoseconds. */
  type Time = int
  const MILLISECOND: int := 1_000_000
  const SECOND: int := 1_000 * MILLISECOND
  const MINUTE: int := 60 * SECOND

  const MAX_INT32: int := 0x7fff_ffff

  predicate IsLowerHex(c: char) {
    '0' <= c <= '9' || 'a' <= c <= 'f'
  }

  predicate IsDashPosition(i: int) {
    i == 8 || i == 13 || i == 18 || i == 23
  }

  /** The canonical text of a UUID, the only form `KeyID.String()` produces. */
  predicate IsUuidText(s: string) {
    && |s| == 36
    && forall i :: 0 <= i < 36 ==> if IsDashPosition(i) then s[i] == '-' else IsLowerHex(s[i])
  }

  const NIL_UUID: string := "00000000-0000-0000-0000-000000000000"

  /** A key id, represented by its canonical text. */
  type KeyId = s: string | IsUuidText(s) witness NIL_UUID

  datatype KeyType = Aes256 | OtherKeyType

  /** Ordered as the protocol buffer enum is: Unspecified < Standard < Hardened. */
  datatype StorageProfile = Unspecified | Standard | Hardened

  datatype KeyStatus = Active | Rotated | Revoked

  datatype Metadata = Metadata(
    keyType: KeyType,
    version: int,
    updatedAt: Time,
    expiresAt: Option<Time>,
    authorizedContexts: seq<string>,
    accessPolicies: map<string, string>,
    description: string,
    tags: map<string, string>,
    dataClassification: int,
    storageType: StorageProfile)

  /** One row of the `keys` table, without its primary key (id, version). */
  datatype Row = Row(
    metadata: Metadata,
    encryptedDek: Bytes,
    status: KeyStatus,
    createdAt: Time,
    updatedAt: Time,
    revokedAt: Option<Time>)

  /** A row as the repository hands it to its callers. */
  datatype Key = Key(id: KeyId, version: int, row: Row)
}
