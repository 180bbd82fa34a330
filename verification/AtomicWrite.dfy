/** Replacing a file through a synced temporary file beside it, and what a reader or a machine that
    loses power at any point finds. */
module AtomicWrite {
  import opened Common

  /** A file's contents, and how much of it is on stable storage. */
  datatype File = File(data: seq<int>, stable: nat, mode: int)

  type Files = map<string, File>

  /** The steps after the parent directory exists. */
  datatype Step = Open | Write | Sync | Chmod | Replace

  const STEPS := [Open, Write, Sync, Chmod, Replace]

  /** What a step leaves when it succeeds. */
  function Done(fs: Files, step: Step, path: string, tmp: string, data: seq<int>, mode: int): Files {
    match step
    case Open => fs[tmp := File([], 0, 0)]
    case Write => if tmp in fs then fs[tmp := fs[tmp].(data := data)] else fs
    case Sync => if tmp in fs then fs[tmp := fs[tmp].(stable := |fs[tmp].data|)] else fs
    case Chmod => if tmp in fs then fs[tmp := fs[tmp].(mode := mode)] else fs
    case Replace => if tmp in fs then fs[path := fs[tmp]] - {tmp} else fs
  }

  /** What a step may leave when it fails half way: a write, any prefix of the data. */
  predicate Torn(fs: Files, step: Step, tmp: string, data: seq<int>, fs': Files) {
    match step
    case Open => fs' == fs || fs' == fs[tmp := File([], 0, 0)]
    case Write => tmp in fs && tmp in fs' && fs' == fs[tmp := fs'[tmp]] && fs'[tmp].data <= data
    case Sync => tmp in fs && tmp in fs' && fs' == fs[tmp := fs'[tmp]] && fs'[tmp].data == fs[tmp].data
    case _ => fs' == fs
  }

  /** After a power loss a file holds what was synced, or any amount more of what was written. */
  predicate SurvivesAs(f: File, found: seq<int>) {
    f.stable <= |found| && found <= f.data
  }

  predicate Whole(f: File) {
    f.stable == |f.data|
  }

  /** Reader and power loss alike find the old file or the whole new one, never part of either. */
  predicate OldOrNew(fs: Files, start: Files, path: string, data: seq<int>) {
    && (path in start ==> path in fs)
    && (path in fs ==>
          || (path in start && fs[path] == start[path])
          || (fs[path].data == data && Whole(fs[path])))
  }

  /** Nothing but the file and its temporary changes. */
  ghost predicate OthersSame(fs: Files, start: Files, path: string, tmp: string) {
    && (forall p :: p in fs && p != path && p != tmp ==> p in start && fs[p] == start[p])
    && (forall p :: p in start && p != path && p != tmp ==> p in fs)
  }

  /** The states the disk goes through, the starting one first. */
  class Disk {
    var files: Files
    var trace: seq<Files>

    constructor (fs: Files)
      ensures files == fs && trace == [fs]
    {
      files, trace := fs, [fs];
    }

    /** One system call; a failing one leaves `torn`. */
    method Call(step: Step, path: string, tmp: string, data: seq<int>, mode: int, torn: Option<Files>)
      modifies this
      ensures files == (if torn.Some? then torn.value else Done(old(files), step, path, tmp, data, mode))
      ensures trace == old(trace) + [files]
    {
      files := if torn.Some? then torn.value else Done(files, step, path, tmp, data, mode);
      trace := trace + [files];
    }

    /** `torn` says at which step the write fails, if any, and what that step leaves. On success the file holds
        exactly the data, synced, under the mode; on failure the file is the old one; the temporary is
        gone either way, and at every moment in between the file is whole. */
    method AtomicWriteBytes(path: string, tmp: string, data: seq<int>, mode: int, torn: Option<(nat, Files)>)
      returns (ok: bool)
      requires path != tmp && trace != [] && trace[|trace| - 1] == files
      requires torn.Some? ==>
                 torn.value.0 < |STEPS|
                 && Torn(Before(files, torn.value.0, path, tmp, data, mode), STEPS[torn.value.0], tmp, data,
                         torn.value.1)
      modifies this
      ensures ok <==> torn.None?
      ensures ok ==> path in files && files[path] == File(data, |data|, mode)
      ensures !ok ==> (path in files <==> path in old(files)) && (path in files ==> files[path] == old(files)[path])
      ensures tmp !in files
      ensures OthersSame(files, old(files), path, tmp)
      ensures old(trace) <= trace
      ensures forall i :: |old(trace)| - 1 <= i < |trace| ==> OldOrNew(trace[i], old(files), path, data)
    {
      ghost var start := files;
      var i := 0;
      while i < |STEPS|
        invariant i <= |STEPS|
        invariant torn.Some? ==> i <= torn.value.0
        invariant files == Before(start, i, path, tmp, data, mode)
        invariant |trace| == |old(trace)| + i && old(trace) <= trace
        invariant forall k :: |old(trace)| - 1 <= k < |trace| ==> OldOrNew(trace[k], start, path, data)
      {
        BeforeIs(start, i, path, tmp, data, mode);
        BeforeIs(start, i + 1, path, tmp, data, mode);
        if torn.Some? && torn.value.0 == i {
          TornKeepsPath(start, i, path, tmp, data, mode, torn.value.1);
          Call(STEPS[i], path, tmp, data, mode, Some(torn.value.1));
          files := files - {tmp};
          trace := trace + [files];
          return false;
        }
        Call(STEPS[i], path, tmp, data, mode, None);
        i := i + 1;
      }
      BeforeIs(start, |STEPS|, path, tmp, data, mode);
      ok := true;
    }
  }

  /** The disk after the first `i` steps. */
  function Before(fs: Files, i: nat, path: string, tmp: string, data: seq<int>, mode: int): Files
    requires i <= |STEPS|
  {
    if i == 0 then fs else Done(Before(fs, i - 1, path, tmp, data, mode), STEPS[i - 1], path, tmp, data, mode)
  }

  /** The temporary file after each of the first four steps. */
  function Staged(i: nat, data: seq<int>, mode: int): File
    requires 1 <= i <= 4
  {
    if i == 1 then File([], 0, 0)
    else if i == 2 then File(data, 0, 0)
    else if i == 3 then File(data, |data|, 0)
    else File(data, |data|, mode)
  }

  lemma StepIsStaged(fs: Files, i: nat, path: string, tmp: string, data: seq<int>, mode: int)
    requires path != tmp && 1 <= i <= 3
    ensures Done(fs[tmp := Staged(i, data, mode)], STEPS[i], path, tmp, data, mode)
         == fs[tmp := Staged(i + 1, data, mode)]
  {
    var now := fs[tmp := Staged(i, data, mode)];
    assert now[tmp := Staged(i + 1, data, mode)] == fs[tmp := Staged(i + 1, data, mode)];
  }

  lemma {:induction false} BeforeIsStaged(fs: Files, i: nat, path: string, tmp: string, data: seq<int>, mode: int)
    requires path != tmp && 1 <= i <= 4
    ensures Before(fs, i, path, tmp, data, mode) == fs[tmp := Staged(i, data, mode)]
  {
    if i == 1 {
      assert Before(fs, 0, path, tmp, data, mode) == fs;
    } else {
      BeforeIsStaged(fs, i - 1, path, tmp, data, mode);
      StepIsStaged(fs, i - 1, path, tmp, data, mode);
    }
  }

  lemma BeforeIs(fs: Files, i: nat, path: string, tmp: string, data: seq<int>, mode: int)
    requires path != tmp && i <= |STEPS|
    ensures var now := Before(fs, i, path, tmp, data, mode);
            && OldOrNew(now, fs, path, data)
            && OthersSame(now, fs, path, tmp)
            && (i == 0 ==> now == fs)
            && (0 < i < 5 ==> tmp in now && now == fs[tmp := now[tmp]])
            && (i == 5 ==> tmp !in now && path in now && now[path] == File(data, |data|, mode))
  {
    if 1 <= i <= 4 {
      BeforeIsStaged(fs, i, path, tmp, data, mode);
    } else if i == 5 {
      BeforeIsStaged(fs, 4, path, tmp, data, mode);
      assert STEPS[4] == Replace;
    }
  }

  lemma TornKeepsPath(fs: Files, i: nat, path: string, tmp: string, data: seq<int>, mode: int, torn: Files)
    requires path != tmp && i < |STEPS|
    requires Torn(Before(fs, i, path, tmp, data, mode), STEPS[i], tmp, data, torn)
    ensures path in torn <==> path in fs
    ensures path in fs ==> torn[path] == fs[path]
    ensures OthersSame(torn, fs, path, tmp)
  {
    BeforeIs(fs, i, path, tmp, data, mode);
  }

  /** What a power loss may find of one state: its file as it survives, or none. */
  predicate FoundIn(fs: Files, path: string, found: Option<seq<int>>) {
    if path in fs then found.Some? && SurvivesAs(fs[path], found.value) else found == None
  }

  /** The directory is never synced: after the steps in `trace` its name for the file on stable storage may be that of
      any of the states so far. */
  ghost predicate MayFind(trace: seq<Files>, path: string, found: Option<seq<int>>) {
    exists i :: 0 <= i < |trace| && FoundIn(trace[i], path, found)
  }

  /** So at any step a power loss finds all of the old file as it would have survived anyway, or all of the new
      data. */
  lemma PowerLossFindsOldOrNew(trace: seq<Files>, start: Files, path: string, data: seq<int>, found: Option<seq<int>>)
    requires forall i :: 0 <= i < |trace| ==> OldOrNew(trace[i], start, path, data)
    requires MayFind(trace, path, found)
    ensures FoundIn(start, path, found) || found == Some(data)
  {
    var i :| 0 <= i < |trace| && FoundIn(trace[i], path, found);
    var f := trace[i];
    assert OldOrNew(f, start, path, data);
    if path in f && f[path].data == data && Whole(f[path]) {
      assert found.value == data[..|found.value|] == data;
    }
  }

  /** And after success it still may find either: exactly the old file or the new data. The write is atomic, but not
      yet durable. */
  lemma SuccessMayBeLost(trace: seq<Files>, start: Files, path: string, data: seq<int>, mode: int,
                         found: Option<seq<int>>)
    requires forall i :: 0 <= i < |trace| ==> OldOrNew(trace[i], start, path, data)
    requires trace != [] && trace[0] == start
    requires path in trace[|trace| - 1] && trace[|trace| - 1][path] == File(data, |data|, mode)
    ensures MayFind(trace, path, found) <==> FoundIn(start, path, found) || found == Some(data)
  {
    if MayFind(trace, path, found) {
      PowerLossFindsOldOrNew(trace, start, path, data, found);
    }
    if FoundIn(start, path, found) {
      assert FoundIn(trace[0], path, found);
    }
    if found == Some(data) {
      assert FoundIn(trace[|trace| - 1], path, found);
    }
  }
}
