/** Text files as the changers see them. Any single read or write may fail, as decided by faults at its
    place in the order of operations; an operation that fails changes nothing. */
module Files {
  import opened Outcomes

  datatype Entry = Folder | File(text: string, writable: bool)

  datatype Fs = Fs(entries: map<string, Entry>, faults: nat -> bool, clock: nat)

  datatype ReadResult = Text(text: string) | NotFound | OtherError

  predicate Exists(fs: Fs, path: string) {
    path in fs.entries
  }

  predicate IsFile(fs: Fs, path: string) {
    path in fs.entries && fs.entries[path].File?
  }

  predicate IsWritable(fs: Fs, path: string) {
    IsFile(fs, path) && fs.entries[path].writable
  }

  /** Nothing ever fails. */
  ghost predicate NoFaults(fs: Fs) {
    forall k :: !fs.faults(k)
  }

  /** Files on which nothing fails. */
  function Calm(entries: map<string, Entry>): Fs {
    Fs(entries, k => false, 0)
  }

  function ReadText(fs: Fs, path: string): (ReadResult, Fs) {
    (if !Exists(fs, path) then NotFound
     else if !IsFile(fs, path) || fs.faults(fs.clock) then OtherError
     else Text(fs.entries[path].text),
     fs.(clock := fs.clock + 1))
  }

  /** Whether the write took effect, and the files after it. A missing file is created. */
  function WriteText(fs: Fs, path: string, text: string): (bool, Fs) {
    if fs.faults(fs.clock) || (Exists(fs, path) && !IsWritable(fs, path)) then (false, fs.(clock := fs.clock + 1))
    else (true, fs.(entries := fs.entries[path := File(text, true)], clock := fs.clock + 1))
  }

  class FileSystem {
    var fs: Fs

    constructor (fs: Fs)
      ensures this.fs == fs
    {
      this.fs := fs;
    }

    /** The text of a file, or why there is none; nothing but the clock moves. */
    method ReadTextFile(path: string) returns (r: ReadResult)
      modifies this
      ensures (r, fs) == ReadText(old(fs), path)
      ensures fs == Fs(old(fs).entries, old(fs).faults, old(fs).clock + 1)
      ensures forall text :: r == Text(text) <==>
                && path in old(fs).entries && (exists writable :: old(fs).entries[path] == File(text, writable))
                && !old(fs).faults(old(fs).clock)
      ensures r == NotFound <==> path !in old(fs).entries
    {
      var (result, after) := ReadText(fs, path);
      fs := after;
      r := result;
    }

    /** Writes a file that is writable, or creates one; otherwise, or if it fails, nothing changes but the
        clock. */
    method WriteTextFile(path: string, text: string) returns (ok: bool)
      modifies this
      ensures (ok, fs) == WriteText(old(fs), path, text)
      ensures ok <==>
                && !old(fs).faults(old(fs).clock)
                && (path in old(fs).entries ==> exists before :: old(fs).entries[path] == File(before, true))
      ensures fs.faults == old(fs).faults && fs.clock == old(fs).clock + 1
      ensures fs.entries == if ok then old(fs).entries[path := File(text, true)] else old(fs).entries
    {
      var (result, after) := WriteText(fs, path, text);
      fs := after;
      ok := result;
    }
  }
}
