/** The records that several components exchange. */
module Types {

  /** An info hash, as text. */
  type Key = string

  newtype Byte = x: int | 0 <= x < 256

  type Bytes = seq<Byte>

  datatype FileInfo = FileInfo(id: int, name: string, size: int, progress: real)

  datatype TorrentInfo = TorrentInfo(
    infoHash: Key, name: string, files: seq<FileInfo>, seeders: int, leechers: int)
}
