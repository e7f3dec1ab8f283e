/** The in-memory filesystem that stands in for an SPI device node: a table
    of file attributes, a table of file contents (missing contents read as
    empty bytes) and a handle counter, updated in place by the filesystem
    operations. A missing key raises KeyError, which ends the operation after
    the updates made before it. */
module VirtualSpi {
  import opened Prelude
  import opened Bits
  import opened Ioctl

  /** `stat.S_IFDIR` and `stat.S_IFREG`. */
  const SIfDir: nat := 0x4000
  const SIfReg: nat := 0x8000

  /** `0o770000`: the file-type bits that chmod keeps. */
  const TypeMask: nat := 0x3F000

  /** The attributes of one entry: `st_mode`, `st_nlink` and `st_size` (the
      root entry has no size). Timestamps are not modelled. */
  datatype Stat = Stat(mode: nat, nlink: int, size: Option<int>)

  datatype FsState = FsState(files: map<string, Stat>, data: map<string, seq<byte>>, fd: int)

  /** Whether an operation ran to its end or raised KeyError part-way. */
  datatype Status = Done | KeyError

  /** The result of one operation on the state, with its return value. */
  datatype Step<T> = Step(state: FsState, status: Status, value: T)

  /** The state of a freshly constructed filesystem: only the root directory. */
  function InitialState(): (s: FsState)
    ensures s.files.Keys == {"/"} && s.data == map[] && s.fd == 0
  {
    FsState(map["/" := Stat(Or(SIfDir, 0x1ED), 2, None)], map[], 0)
  }

  /** `data[path]` on the defaultdict: absent contents read as empty. */
  function DataOf(s: FsState, path: string): seq<byte> {
    if path in s.data then s.data[path] else []
  }

  /** Python's `b[:n]`: a negative `n` counts from the end, and the slice
      stops at the end of `b`. */
  function PyPrefix(b: seq<byte>, n: int): (r: seq<byte>)
    ensures |r| == if n >= 0 then Min(n, |b|) else Max(0, |b| + n)
    ensures r == b[..|r|]
  {
    if n >= 0 then b[..Min(n, |b|)] else b[..Max(0, |b| + n)]
  }

  function Min(a: int, b: int): int { if a <= b then a else b }
  function Max(a: int, b: int): int { if a >= b then a else b }

  // ---------------------------------------------------------------------
  // The operations on the state value
  // ---------------------------------------------------------------------

  /** `chmod`: keep the type bits of the mode and `|` in the new one. */
  function ChmodSpec(s: FsState, path: string, mode: nat): (r: Step<int>)
    ensures r.status == KeyError <==> path !in s.files
    ensures r.status == KeyError ==> r.state == s
    ensures r.state.files.Keys == s.files.Keys && r.state.data == s.data && r.state.fd == s.fd
    ensures forall p :: p in s.files && p != path ==> r.state.files[p] == s.files[p]
  {
    if path !in s.files then Step(s, KeyError, 0)
    else
      var st := s.files[path];
      Step(s.(files := s.files[path := st.(mode := Or(And(st.mode, TypeMask), mode))]), Done, 0)
  }

  /** `create`: a regular file of size 0 with one link, and a new handle. */
  function CreateSpec(s: FsState, path: string, mode: nat): (r: Step<int>)
    ensures r.status == Done && r.value == r.state.fd == s.fd + 1
    ensures r.state.files.Keys == s.files.Keys + {path} && r.state.data == s.data
    ensures forall p :: p in s.files && p != path ==> r.state.files[p] == s.files[p]
  {
    var s' := s.(files := s.files[path := Stat(Or(SIfReg, mode), 1, Some(0))], fd := s.fd + 1);
    Step(s', Done, s'.fd)
  }

  /** `open`: a new handle, nothing else. */
  function OpenSpec(s: FsState): (r: Step<int>)
    ensures r.status == Done && r.value == r.state.fd == s.fd + 1
    ensures r.state.files == s.files && r.state.data == s.data
  {
    Step(s.(fd := s.fd + 1), Done, s.fd + 1)
  }

  /** `mkdir`: a directory with two links, then one more link on the root. */
  function MkdirSpec(s: FsState, path: string, mode: nat): (r: Step<()>)
    ensures r.status == KeyError <==> "/" !in s.files && path != "/"
    ensures r.state.files.Keys == s.files.Keys + {path} && r.state.data == s.data && r.state.fd == s.fd
    ensures forall p :: p in s.files && p != path && p != "/" ==> r.state.files[p] == s.files[p]
    ensures r.status == Done && path != "/" ==> r.state.files["/"].nlink == s.files["/"].nlink + 1
  {
    var files := s.files[path := Stat(Or(SIfDir, mode), 2, Some(0))];
    if "/" !in files then Step(s.(files := files), KeyError, ())
    else Step(s.(files := files["/" := files["/"].(nlink := files["/"].nlink + 1)]), Done, ())
  }

  /** `rmdir`: remove the entry (whatever it is), then one link fewer on the
      root. */
  function RmdirSpec(s: FsState, path: string): (r: Step<()>)
    ensures r.status == KeyError <==> path !in s.files || "/" !in s.files || path == "/"
    ensures r.status == Done ==> r.state.files.Keys == s.files.Keys - {path}
    ensures r.status == Done ==>
              r.state.files == (s.files - {path})["/" := s.files["/"].(nlink := s.files["/"].nlink - 1)]
    ensures r.status == KeyError ==> r.state.files.Keys == s.files.Keys - {path}
    ensures r.state.data == s.data && r.state.fd == s.fd
  {
    if path !in s.files then Step(s, KeyError, ())
    else
      var files := s.files - {path};
      if "/" !in files then Step(s.(files := files), KeyError, ())
      else Step(s.(files := files["/" := files["/"].(nlink := files["/"].nlink - 1)]), Done, ())
  }

  /** `rename`: the attributes move to the new name; the contents stay under
      the old one. */
  function RenameSpec(s: FsState, src: string, dst: string): (r: Step<()>)
    ensures r.status == KeyError <==> src !in s.files
    ensures r.status == Done ==> dst in r.state.files && r.state.files[dst] == s.files[src]
    ensures r.status == Done ==> r.state.files == (s.files - {src})[dst := s.files[src]]
    ensures r.status == Done && src != dst ==> src !in r.state.files
    ensures r.status == KeyError ==> r.state == s
    ensures r.state.data == s.data && r.state.fd == s.fd
  {
    if src !in s.files then Step(s, KeyError, ())
    else Step(s.(files := (s.files - {src})[dst := s.files[src]]), Done, ())
  }

  /** `truncate`: cut the contents to `length`, then record `length` as the
      size. */
  function TruncateSpec(s: FsState, path: string, length: int): (r: Step<()>)
    ensures r.status == KeyError <==> path !in s.files
    ensures path in r.state.data && r.state.data[path] <= DataOf(s, path)
    ensures r.state.files.Keys == s.files.Keys && r.state.fd == s.fd
    ensures forall p :: p in s.files && p != path ==> r.state.files[p] == s.files[p]
    ensures forall p :: p in s.data && p != path ==> p in r.state.data && r.state.data[p] == s.data[p]
  {
    var s' := s.(data := s.data[path := PyPrefix(DataOf(s, path), length)]);
    if path !in s.files then Step(s', KeyError, ())
    else Step(s'.(files := s.files[path := s.files[path].(size := Some(length))]), Done, ())
  }

  /** `write`: the contents up to `offset`, then the bytes written; the size
      becomes the new length, and the number of bytes written is returned. */
  function WriteSpec(s: FsState, path: string, bytes: seq<byte>, offset: int): (r: Step<int>)
    ensures r.status == KeyError <==> path !in s.files
    ensures path in r.state.data && |bytes| <= |r.state.data[path]|
    ensures r.state.data[path][|r.state.data[path]| - |bytes|..] == bytes
    ensures r.state.files.Keys == s.files.Keys && r.state.fd == s.fd
    ensures forall p :: p in s.files && p != path ==> r.state.files[p] == s.files[p]
    ensures forall p :: p in s.data && p != path ==> p in r.state.data && r.state.data[p] == s.data[p]
  {
    var contents := PyPrefix(DataOf(s, path), offset) + bytes;
    var s' := s.(data := s.data[path := contents]);
    if path !in s.files then Step(s', KeyError, 0)
    else Step(s'.(files := s.files[path := s.files[path].(size := Some(|contents|))]), Done, |bytes|)
  }

  // ---------------------------------------------------------------------
  // What the operations promise
  // ---------------------------------------------------------------------

  /** For a permission mode (below `0o10000`), chmod keeps the file type and
      replaces the permission bits; so the second of two chmods wins. */
  lemma ChmodKeepsType(s: FsState, path: string, mode: nat, mode2: nat)
    requires path in s.files && mode < 0x1000 && mode2 < 0x1000
    ensures var st := ChmodSpec(s, path, mode).state.files[path];
      st.mode == (s.files[path].mode / 0x1000 % 0x40) * 0x1000 + mode
    ensures ChmodSpec(ChmodSpec(s, path, mode).state, path, mode2) == ChmodSpec(s, path, mode2)
  {
    var m := s.files[path].mode;
    var t := m / 0x1000 % 0x40;
    ChmodMode(m, mode);
    ChmodMode(m, mode2);
    var m1 := Or(And(m, TypeMask), mode);
    ChmodMode(m1, mode2);
    DivModUnique(m1, 0x1000, t, mode);
    DivModUnique(t, 0x40, 0, t);
    assert Or(And(m1, TypeMask), mode2) == Or(And(m, TypeMask), mode2);
  }

  /** The arithmetic of chmod: `m & 0o770000 | mode` for `mode < 0o10000`. */
  lemma ChmodMode(m: nat, mode: nat)
    requires mode < 0x1000
    ensures Or(And(m, TypeMask), mode) == (m / 0x1000 % 0x40) * 0x1000 + mode
  {
    Pow2Values();
    assert Pow2(6) == 0x40;
    assert m == (m / 0x1000) * Pow2(12) + m % 0x1000;
    AndSplit(m / 0x1000, m % 0x1000, 0x3F, 0, 12);
    AndZero(m % 0x1000);
    AndLowMask(m / 0x1000, 6);
    Disjoint(m / 0x1000 % 0x40, mode, 12);
  }

  /** A new directory or file gets its type bits above the permission bits
      it was given. */
  lemma NewEntryModes(s: FsState, path: string, mode: nat)
    requires mode < 0x1000
    ensures CreateSpec(s, path, mode).state.files[path].mode == SIfReg + mode
    ensures "/" in s.files && path != "/" ==> MkdirSpec(s, path, mode).state.files[path].mode == SIfDir + mode
  {
    Pow2Values();
    Disjoint(8, mode, 12);
    Disjoint(4, mode, 12);
  }

  /** `k` handles taken in a row, by create or open. */
  function Handles(s: FsState, k: nat): (r: (FsState, seq<int>))
    ensures |r.1| == k
    decreases k
  {
    if k == 0 then (s, [])
    else
      var (s', hs) := Handles(s, k - 1);
      var step := OpenSpec(s');
      (step.state, hs + [step.value])
  }

  /** Handles are handed out strictly increasing from the counter, each one
      more than the last, and the counter ends at the last one. */
  lemma {:induction false} HandlesIncrease(s: FsState, k: nat)
    ensures forall i :: 0 <= i < k ==> Handles(s, k).1[i] == s.fd + i + 1
    ensures Handles(s, k).0 == s.(fd := s.fd + k)
  {
    if k > 0 {
      HandlesIncrease(s, k - 1);
    }
  }

  /** Create takes a handle exactly as open does. */
  lemma CreateTakesHandle(s: FsState, path: string, mode: nat)
    ensures CreateSpec(s, path, mode).value == OpenSpec(s).value == s.fd + 1
    ensures CreateSpec(s, path, mode).state.fd == OpenSpec(s).state.fd
  {
  }

  /** Removing a directory just made restores the table, and the root's link
      count goes up by one and back down. */
  lemma MkdirRmdir(s: FsState, path: string, mode: nat)
    requires "/" in s.files && path != "/" && path !in s.files
    ensures MkdirSpec(s, path, mode).status == Done
    ensures MkdirSpec(s, path, mode).state.files["/"].nlink == s.files["/"].nlink + 1
    ensures RmdirSpec(MkdirSpec(s, path, mode).state, path) == Step(s, Done, ())
  {
    var files := MkdirSpec(s, path, mode).state.files;
    assert (files - {path})["/" := s.files["/"]] == s.files;
  }

  /** Renaming there and back restores the table; the contents never move. */
  lemma RenameBack(s: FsState, a: string, b: string)
    requires a in s.files && b !in s.files
    ensures RenameSpec(RenameSpec(s, a, b).state, b, a) == Step(s, Done, ())
    ensures RenameSpec(s, a, b).state.data == s.data
  {
    var files := RenameSpec(s, a, b).state.files;
    assert (files - {b})[a := s.files[a]] == s.files;
  }

  /** After a write the written bytes end the contents, right after the kept
      prefix, and the recorded size is the length of the contents; the
      return value is the number of bytes written. */
  lemma WriteContents(s: FsState, path: string, bytes: seq<byte>, offset: int)
    requires path in s.files && 0 <= offset
    ensures var r := WriteSpec(s, path, bytes, offset);
      var keep := Min(offset, |DataOf(s, path)|);
      && r.status == Done && r.value == |bytes|
      && r.state.data[path][..keep] == DataOf(s, path)[..keep]
      && r.state.data[path][keep..] == bytes
      && r.state.files[path].size == Some(|r.state.data[path]|)
  {
  }

  /** Truncating to the offset of a write within the contents removes what
      it wrote. (Past the end, the bytes land at the end of the old contents,
      below `offset`, and survive the truncation.) */
  lemma TruncateUndoesWrite(s: FsState, path: string, bytes: seq<byte>, offset: int)
    requires path in s.files && 0 <= offset <= |DataOf(s, path)|
    ensures var t := TruncateSpec(WriteSpec(s, path, bytes, offset).state, path, offset).state;
      t.data[path] == PyPrefix(DataOf(s, path), offset)
  {
    var c := PyPrefix(DataOf(s, path), offset);
    assert PyPrefix(c + bytes, offset) == c;
  }

  /** Truncate records `length` as the size even when the contents are
      shorter: the size matches the contents exactly when `length` is
      between 0 and the old length. */
  lemma TruncateSize(s: FsState, path: string, length: int)
    requires path in s.files
    ensures var r := TruncateSpec(s, path, length);
      && r.status == Done
      && r.state.files[path].size == Some(length)
      && (r.state.files[path].size == Some(|r.state.data[path]|) <==> 0 <= length <= |DataOf(s, path)|)
  {
  }

  /** Operations on a missing entry raise KeyError; chmod, rename and rmdir
      then leave everything unchanged, while write and truncate have already
      stored the new contents. */
  lemma MissingEntry(s: FsState, path: string, other: string, mode: nat, bytes: seq<byte>, offset: int)
    requires path !in s.files
    ensures ChmodSpec(s, path, mode) == Step(s, KeyError, 0)
    ensures RenameSpec(s, path, other) == Step(s, KeyError, ())
    ensures RmdirSpec(s, path) == Step(s, KeyError, ())
    ensures WriteSpec(s, path, bytes, offset).status == KeyError
    ensures WriteSpec(s, path, bytes, offset).state.files == s.files
    ensures WriteSpec(s, path, bytes, offset).state.data[path] == PyPrefix(DataOf(s, path), offset) + bytes
  {
  }

  // ---------------------------------------------------------------------
  // The filesystem object
  // ---------------------------------------------------------------------

  class VirtualSpiFs {
    var files: map<string, Stat>
    var data: map<string, seq<byte>>
    var fd: int

    function View(): FsState
      reads this
    {
      FsState(files, data, fd)
    }

    constructor ()
      ensures View() == InitialState()
    {
      files := map["/" := Stat(Or(SIfDir, 0x1ED), 2, None)];
      data := map[];
      fd := 0;
    }

    method Chmod(path: string, mode: nat) returns (status: Status, r: int)
      modifies this
      ensures Step(View(), status, r) == ChmodSpec(old(View()), path, mode)
    {
      if path !in files {
        return KeyError, 0;
      }
      var st := files[path];
      files := files[path := st.(mode := And(st.mode, TypeMask))];
      st := files[path];
      files := files[path := st.(mode := Or(st.mode, mode))];
      return Done, 0;
    }

    method Create(path: string, mode: nat) returns (handle: int)
      modifies this
      ensures Step(View(), Done, handle) == CreateSpec(old(View()), path, mode)
    {
      files := files[path := Stat(Or(SIfReg, mode), 1, Some(0))];
      fd := fd + 1;
      handle := fd;
    }

    method Open(path: string, flags: int) returns (handle: int)
      modifies this
      ensures Step(View(), Done, handle) == OpenSpec(old(View()))
    {
      fd := fd + 1;
      handle := fd;
    }

    method Mkdir(path: string, mode: nat) returns (status: Status)
      modifies this
      ensures Step(View(), status, ()) == MkdirSpec(old(View()), path, mode)
    {
      files := files[path := Stat(Or(SIfDir, mode), 2, Some(0))];
      if "/" !in files {
        return KeyError;
      }
      var root := files["/"];
      files := files["/" := root.(nlink := root.nlink + 1)];
      return Done;
    }

    method Rmdir(path: string) returns (status: Status)
      modifies this
      ensures Step(View(), status, ()) == RmdirSpec(old(View()), path)
    {
      if path !in files {
        return KeyError;
      }
      files := files - {path};
      if "/" !in files {
        return KeyError;
      }
      var root := files["/"];
      files := files["/" := root.(nlink := root.nlink - 1)];
      return Done;
    }

    method Rename(src: string, dst: string) returns (status: Status)
      modifies this
      ensures Step(View(), status, ()) == RenameSpec(old(View()), src, dst)
    {
      if src !in files {
        return KeyError;
      }
      var st := files[src];
      files := files - {src};
      files := files[dst := st];
      return Done;
    }

    method Truncate(path: string, length: int) returns (status: Status)
      modifies this
      ensures Step(View(), status, ()) == TruncateSpec(old(View()), path, length)
    {
      var contents := if path in data then data[path] else [];
      data := data[path := PyPrefix(contents, length)];
      if path !in files {
        return KeyError;
      }
      files := files[path := files[path].(size := Some(length))];
      return Done;
    }

    method Write(path: string, bytes: seq<byte>, offset: int) returns (status: Status, written: int)
      modifies this
      ensures Step(View(), status, written) == WriteSpec(old(View()), path, bytes, offset)
    {
      var contents := if path in data then data[path] else [];
      data := data[path := PyPrefix(contents, offset) + bytes];
      if path !in files {
        return KeyError, 0;
      }
      files := files[path := files[path].(size := Some(|data[path]|))];
      return Done, |bytes|;
    }

    /** `ioctl`: the return code depends on the command alone. */
    method Ioctl(path: string, cmd: nat) returns (r: nat)
      ensures r == IoctlResult(cmd)
      ensures r != 0 <==> cmd == SpiIocMessage(1) || cmd == SpiIocMessage(2)
    {
      if cmd == SpiIocMessage(1) {
        return 1;
      }
      if cmd == SpiIocMessage(2) {
        return 2;
      }
      return 0;
    }
  }
}
