/** The per-job record of what has been synced, and the file it is kept in. */
module Records {
  import opened Options
  import opened Paths

  type Remote = string

  /** What the walk found on the server. */
  datatype RemoteFile = RemoteFile(path: Remote, mtime: int, size: int)

  /** `localPath` is "" in manifests older than the field. */
  datatype Entry = Entry(mtime: int, size: int, localPath: Path, digest: string)

  type Entries = map<Remote, Entry>

  function EntryFor(file: RemoteFile, localPath: Path, digest: string): Entry {
    Entry(file.mtime, file.size, localPath, digest)
  }

  /** The file needs no transfer: the manifest has it at this time and size. */
  predicate Current(entries: Entries, file: RemoteFile) {
    file.path in entries && entries[file.path].mtime == file.mtime && entries[file.path].size == file.size
  }

  /** No two remote files record the same destination. */
  ghost predicate DistinctDestinations(entries: Entries) {
    forall r, q :: r in entries && q in entries && r != q && entries[r].localPath != ""
      ==> entries[r].localPath != entries[q].localPath
  }

  class Manifest {
    var entries: Entries
    // What a reader of the manifest file would find, and the temp file beside it.
    var stored: Entries
    var temp: Option<Entries>

    constructor (stored: Entries)
      ensures entries == stored && this.stored == stored
    {
      entries, this.stored, temp := stored, stored, None;
    }

    method Get(path: Remote) returns (entry: Entry, found: bool)
      ensures found == (path in entries)
      ensures found ==> entry == entries[path]
    {
      found := path in entries;
      entry := if found then entries[path] else Entry(0, 0, "", "");
    }

    method Set(path: Remote, entry: Entry)
      modifies this`entries
      ensures entries == old(entries)[path := entry]
    {
      entries := entries[path := entry];
    }

    /** The stored file changes completely or not at all, wherever the write fails;
        `torn` is what a failed write leaves in the temp file. */
    method Save(dirOk: bool, writeOk: bool, torn: Entries, renameOk: bool) returns (ok: bool)
      modifies this`stored, this`temp
      ensures ok == (dirOk && writeOk && renameOk)
      ensures stored == if ok then entries else old(stored)
      ensures temp == if !dirOk then old(temp) else if ok then None else Some(if writeOk then entries else torn)
    {
      if !dirOk { return false; }
      temp := Some(if writeOk then entries else torn);
      if !writeOk { return false; }
      if !renameOk { return false; }
      stored, temp := temp.value, None;
      ok := true;
    }
  }
}
