/** What a manifest records about a file, and what it means for bytes to match it. */
module Artifact {
  import opened Common

  type Bytes = seq<bv8>

  /** SHA-256, as an unexplained function from bytes to a hexadecimal digest. */
  type Hash = Bytes -> string

  /** The exact size and, when the publisher gives one, the SHA-256. */
  datatype Record = Record(size: nat, digest: Option<string>)

  predicate Matches(content: Bytes, record: Record, sha: Hash) {
    |content| == record.size && (record.digest.Some? ==> sha(content) == record.digest.value)
  }
}
