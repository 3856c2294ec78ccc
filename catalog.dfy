/** What the catalog and the storage elements answer, shared by the
    transformation agent and the consistency inspector. */
module Catalog {
  import opened Wrappers

  type LFN = string
  type SE = string
  type Pfn = string

  /** The replicas of each LFN: SE -> PFN. */
  type ReplicaMap = map<LFN, map<SE, Pfn>>

  /** A bulk answer: per-file successes and per-file failure reasons. */
  datatype BulkReply<V> = BulkReply(successful: map<LFN, V>, failed: map<LFN, string>)

  /** The catalog's metadata of one file; `Checksum` may be absent. */
  datatype CatalogFileMeta = CatalogFileMeta(size: int, checksum: Option<string>)

  /** A storage element's metadata of one replica. */
  datatype StorageFileMeta = StorageFileMeta(size: int, lost: bool, unavailable: bool, checksum: string)

  const NoSuchFile: string := "No such file or directory"

  function SetOf<T>(s: seq<T>): set<T> {
    set x | x in s
  }
}
