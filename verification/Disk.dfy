/** The download directory as a map from path to content. Every operation may fail, and every state the
    directory passes through is kept in a ghost trace: the points at which the process can be killed. */
module Disk {

  newtype byte = x: int | 0 <= x < 256

  type Bytes = seq<byte>

  type Files = map<string, Bytes>

  class FileSystem {
    var files: Files
    var executable: set<string>  // the paths whose mode lets them run
    ghost var trace: seq<Files>
    ghost var faults: nat  // operations that failed on something that was there to operate on

    ghost predicate Valid()
      reads this
    {
      trace != [] && trace[|trace| - 1] == files
    }

    constructor (files: Files)
      ensures Valid() && this.files == files && trace == [files] && faults == 0
    {
      this.files := files;
      this.executable := {};
      this.trace := [files];
      this.faults := 0;
    }

    method MakeDirectory() returns (ok: bool)
      requires Valid()
      modifies this`faults
      ensures faults == old(faults) + if ok then 0 else 1
    {
      if * {
        ok := true;
      } else {
        ok, faults := false, faults + 1;
      }
    }

    method List() returns (ok: bool, paths: set<string>)
      requires Valid()
      modifies this`faults
      ensures faults == old(faults) + if ok then 0 else 1
      ensures ok ==> paths == files.Keys
    {
      paths := {};
      if * {
        ok, paths := true, files.Keys;
      } else {
        ok, faults := false, faults + 1;
      }
    }

    /** Opens a file for writing, empty. The mode asked for is that of a new file only. */
    method Create(path: string) returns (ok: bool)
      requires Valid()
      modifies this
      ensures executable == old(executable) || (ok && path !in old(files) && executable == old(executable) + {path})
      ensures Valid() && trace == old(trace) + [files]
      ensures files == if ok then old(files)[path := []] else old(files)
      ensures faults == old(faults) + if ok then 0 else 1
    {
      if * {
        var asked: bool := *;
        if path !in files && asked {
          executable := executable + {path};
        }
        files := files[path := []];
        ok := true;
      } else {
        ok, faults := false, faults + 1;
      }
      trace := trace + [files];
    }

    /** A write that fails may still have written part of the data. */
    method Append(path: string, data: Bytes) returns (ok: bool)
      requires Valid() && path in files
      modifies this`files, this`trace, this`faults
      ensures Valid() && trace == old(trace) + [files]
      ensures path in files && files == old(files)[path := files[path]]
      ensures old(files[path]) <= files[path] <= old(files[path]) + data
      ensures ok ==> files[path] == old(files[path]) + data
      ensures faults == old(faults) + if ok then 0 else 1
    {
      if * {
        files := files[path := files[path] + data];
        ok := true;
      } else {
        var k: nat :| k <= |data|;
        files := files[path := files[path] + data[..k]];
        ok, faults := false, faults + 1;
      }
      trace := trace + [files];
    }

    /** The next stretch of an open file, empty only at its end. */
    method Read(path: string, offset: nat) returns (ok: bool, data: Bytes)
      requires Valid() && path in files && offset <= |files[path]|
      modifies this`faults
      ensures faults == old(faults) + if ok then 0 else 1
      ensures ok ==> offset + |data| <= |files[path]| && data == files[path][offset..offset + |data|]
      ensures ok ==> (data == [] <==> offset == |files[path]|)
    {
      data := [];
      if * {
        ok := true;
        if offset < |files[path]| {
          var n: nat :| 0 < n <= |files[path]| - offset;
          data := files[path][offset..offset + n];
        }
      } else {
        ok, faults := false, faults + 1;
      }
    }

    method Close() returns (ok: bool)
      requires Valid()
      modifies this`faults
      ensures faults == old(faults) + if ok then 0 else 1
    {
      if * {
        ok := true;
      } else {
        ok, faults := false, faults + 1;
      }
    }

    method SetExecutable(path: string) returns (ok: bool)
      requires Valid()
      modifies this`executable, this`faults
      ensures executable == if ok then old(executable) + {path} else old(executable)
      ensures faults == old(faults) + if ok then 0 else 1
    {
      if * {
        ok, executable := true, executable + {path};
      } else {
        ok, faults := false, faults + 1;
      }
    }

    method Remove(path: string)
      requires Valid()
      modifies this`files, this`trace, this`faults
      ensures Valid() && trace == old(trace) + [files]
      ensures files == old(files) - {path} || files == old(files)
      ensures faults == old(faults) + if path in files then 1 else 0
    {
      if path in files {
        if * {
          files := files - {path};
        } else {
          faults := faults + 1;
        }
      }
      trace := trace + [files];
    }

    method Rename(source: string, target: string) returns (ok: bool)
      requires Valid() && source in files && source != target
      modifies this
      ensures Valid() && trace == old(trace) + [files]
      ensures files == if ok then old(files)[target := old(files[source])] - {source} else old(files)
      ensures source in old(executable) && ok ==> target in executable
      ensures faults == old(faults) + if ok then 0 else 1
    {
      if * {
        files := files[target := files[source]] - {source};
        executable := executable - {source, target} + if source in executable then {target} else {};
        ok := true;
      } else {
        ok, faults := false, faults + 1;
      }
      trace := trace + [files];
    }
  }
}
