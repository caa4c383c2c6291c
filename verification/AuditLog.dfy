/** The rotating audit log (stock_tracker/api/audit.py). The directory maps 0 to the live file
  and k to backup k; each unlink, rename, create or append is one step. */
module AuditLog {
  import opened Prelude
  import opened AuditRecords

  type Directory = map<nat, seq<string>>

  function Bytes(lines: seq<string>): nat {
    if lines == [] then 0 else |lines[0]| + Bytes(lines[1..])
  }

  lemma {:induction false} BytesSnoc(lines: seq<string>, line: string)
    ensures Bytes(lines + [line]) == Bytes(lines) + |line|
  {
    if lines == [] {
      assert [] + [line] == [line] && [line][1..] == [];
    } else {
      BytesSnoc(lines[1..], line);
      assert (lines + [line])[1..] == lines[1..] + [line];
    }
  }

  function File(d: Directory, k: nat): seq<string> { if k in d then d[k] else [] }

  /** The lines from backup `top` down to the live file. */
  function Contents(d: Directory, top: nat): seq<string> {
    if top == 0 then File(d, 0) else File(d, top) + Contents(d, top - 1)
  }

  ghost predicate SuffixOf(s: seq<string>, history: seq<string>) {
    |s| <= |history| && s == history[|history| - |s|..]
  }

  /** What a reader may rely on at any moment, even between two renames. */
  ghost predicate Good(d: Directory, maxBytes: nat, backups: nat, history: seq<string>) {
    && (forall k | k in d :: k <= backups && Bytes(d[k]) <= maxBytes)
    && SuffixOf(Contents(d, backups), history)
  }

  /** Whether file `k` exists after the files above `index` have moved up by one. */
  ghost predicate Occupied(d: Directory, index: int, k: nat) {
    if k <= index then k in d else index + 2 <= k && k - 1 in d
  }

  /** A rotation after the files above `index` have moved up; `index` is -1 at its end. */
  ghost function Rotating(d: Directory, backups: nat, index: int): Directory
    requires -1 <= index < backups
  {
    map k: nat | k <= backups && Occupied(d, index, k) :: if k <= index then d[k] else d[k - 1]
  }

  lemma RotatingStart(d: Directory, backups: nat)
    requires backups >= 1 && forall k | k in d :: k <= backups
    ensures Rotating(d, backups, backups - 1) == d - {backups}
  {
    forall k: nat ensures k <= backups && Occupied(d, backups - 1, k) <==> k in d - {backups} {}
  }

  /** One step of the loop: rename file `index`, if it is there. */
  lemma RotatingStep(d: Directory, backups: nat, index: nat)
    requires index < backups
    ensures var f, g := Rotating(d, backups, index), Rotating(d, backups, index - 1);
            if index in f then g == (f - {index})[index + 1 := f[index]] else g == f
    ensures index in Rotating(d, backups, index) <==> index in d
  {
    var f, g := Rotating(d, backups, index), Rotating(d, backups, index - 1);
    assert Occupied(d, index, index) == (index in d);
    forall k: nat ensures k != index && k != index + 1 ==> Occupied(d, index, k) == Occupied(d, index - 1, k) {}
    assert !Occupied(d, index, index + 1) && !Occupied(d, index - 1, index);
    assert Occupied(d, index - 1, index + 1) == (index in d);
  }

  /** At every moment of a rotation the log reads the same: everything but the oldest backup. */
  lemma {:induction false} RotatingContents(d: Directory, backups: nat, index: int, top: nat)
    requires -1 <= index < backups && top <= backups
    ensures top <= index ==> Contents(Rotating(d, backups, index), top) == Contents(d, top)
    ensures top == index + 1 ==>
              Contents(Rotating(d, backups, index), top) == if index >= 0 then Contents(d, index) else []
    ensures top >= index + 2 ==> Contents(Rotating(d, backups, index), top) == Contents(d, top - 1)
    decreases top
  {
    var r := Rotating(d, backups, index);
    assert top in r <==> Occupied(d, index, top);
    if top == 0 {
      assert index == -1 ==> File(r, 0) == [];
    } else {
      RotatingContents(d, backups, index, top - 1);
      if top <= index {
        assert File(r, top) == File(d, top);
      } else if top == index + 1 {
        assert File(r, top) == [];
      } else {
        assert File(r, top) == File(d, top - 1);
      }
    }
  }

  lemma DropOldest(d: Directory, maxBytes: nat, backups: nat, history: seq<string>)
    requires backups >= 1 && Good(d, maxBytes, backups, history)
    ensures SuffixOf(Contents(d, backups - 1), history)
  {
    var whole, rest := Contents(d, backups), Contents(d, backups - 1);
    assert rest == whole[|File(d, backups)|..];
  }

  /** Every directory state of a rotation is good. */
  lemma RotatingGood(d: Directory, maxBytes: nat, backups: nat, index: int, history: seq<string>)
    requires -1 <= index < backups && backups >= 1 && Good(d, maxBytes, backups, history)
    ensures Good(Rotating(d, backups, index), maxBytes, backups, history)
  {
    DropOldest(d, maxBytes, backups, history);
    RotatingContents(d, backups, index, backups);
    var r := Rotating(d, backups, index);
    forall k | k in r ensures k <= backups && Bytes(r[k]) <= maxBytes {
      assert Occupied(d, index, k);
    }
  }

  lemma {:induction false} ContentsAppend(d: Directory, top: nat, line: string)
    ensures Contents(d[0 := File(d, 0) + [line]], top) == Contents(d, top) + [line]
  {
    if top > 0 { ContentsAppend(d, top - 1, line); }
  }

  lemma AppendGood(d: Directory, maxBytes: nat, backups: nat, history: seq<string>, line: string)
    requires Good(d, maxBytes, backups, history) && Bytes(File(d, 0)) + |line| <= maxBytes
    ensures Good(d[0 := File(d, 0) + [line]], maxBytes, backups, history + [line])
  {
    ContentsAppend(d, backups, line);
    BytesSnoc(File(d, 0), line);
    var s := Contents(d, backups);
    assert (history + [line])[|history| - |s|..] == history[|history| - |s|..] + [line];
  }

  /** At most `backups + 1` files exist. */
  lemma FileCount(d: Directory, maxBytes: nat, backups: nat, history: seq<string>)
    requires Good(d, maxBytes, backups, history)
    ensures |d| <= backups + 1
  {
    IndexSet(backups);
    assert d.Keys <= Indices(backups);
    SubsetSize(d.Keys, Indices(backups));
    assert |d| == |d.Keys|;
  }

  ghost function Indices(n: nat): set<nat> { if n == 0 then {0} else Indices(n - 1) + {n} }

  lemma {:induction false} IndexSet(n: nat)
    ensures |Indices(n)| == n + 1 && forall k: nat :: k in Indices(n) <==> k <= n
  {
    if n > 0 { IndexSet(n - 1); }
  }

  lemma {:induction false} SubsetSize(a: set<nat>, b: set<nat>)
    requires a <= b
    ensures |a| <= |b|
  {
    if a != {} {
      var x :| x in a;
      SubsetSize(a - {x}, b - {x});
    }
  }

  // ------------------------------------------------------------------------ the logger

  datatype Moment = Moment(files: Directory, history: seq<string>)

  class Logger {
    const enabled: bool
    const maxBytes: nat
    const backupCount: nat
    var files: Directory
    /** Every line ever appended, and every directory state there has been. */
    ghost var history: seq<string>
    ghost var moments: seq<Moment>

    ghost predicate Valid()
      reads this
    {
      && 64 * 1024 <= maxBytes && 1 <= backupCount
      && Good(files, maxBytes, backupCount, history)
      && forall i | 0 <= i < |moments| :: Good(moments[i].files, maxBytes, backupCount, moments[i].history)
    }

    /** A new log in an empty directory; other sizes and counts are refused with ValueError. */
    constructor (enabled: bool, maxBytes: nat, backupCount: nat)
      requires 64 * 1024 <= maxBytes <= 1024 * 1024 * 1024 && 1 <= backupCount <= 20
      ensures Valid() && files == map[] && history == [] && moments == []
      ensures this.enabled == enabled && this.maxBytes == maxBytes && this.backupCount == backupCount
    {
      this.enabled, this.maxBytes, this.backupCount := enabled, maxBytes, backupCount;
      files, history, moments := map[], [], [];
      new;
      assert forall n: nat :: Contents(map[], n) == [] by {
        forall n: nat ensures Contents(map[], n) == [] { EmptyContents(n); }
      }
    }

    /** `unlink` of a file. */
    method Unlink(k: nat)
      requires Valid() && k in files && Good(files - {k}, maxBytes, backupCount, history)
      modifies this
      ensures Valid() && files == old(files) - {k} && history == old(history)
      ensures moments == old(moments) + [Moment(files, history)]
    {
      files := files - {k};
      moments := moments + [Moment(files, history)];
    }

    /** `os.replace`: rename, overwriting the target. */
    method Replace(source: nat, target: nat)
      requires Valid() && source in files && source != target
      requires Good((files - {source})[target := files[source]], maxBytes, backupCount, history)
      modifies this
      ensures Valid() && files == (old(files) - {source})[target := old(files)[source]] && history == old(history)
      ensures moments == old(moments) + [Moment(files, history)]
    {
      files := (files - {source})[target := files[source]];
      moments := moments + [Moment(files, history)];
    }

    /** The oldest backup goes first. */
    method UnlinkOldest()
      requires Valid()
      modifies this
      ensures Valid() && history == old(history) && old(moments) <= moments
      ensures files == Rotating(old(files), backupCount, backupCount - 1)
    {
      RotatingStart(files, backupCount);
      RotatingGood(files, maxBytes, backupCount, backupCount - 1, history);
      if backupCount in files {
        Unlink(backupCount);
      } else {
        assert files - {backupCount} == files;
      }
    }

    /** The live file becomes backup 1 last. */
    method RetireLive(ghost d: Directory)
      requires Valid() && files == Rotating(d, backupCount, 0) && 0 in d
      requires Good(d, maxBytes, backupCount, history)
      modifies this
      ensures Valid() && history == old(history) && old(moments) <= moments
      ensures files == Rotating(d, backupCount, -1)
    {
      RotatingStep(d, backupCount, 0);
      RotatingGood(d, maxBytes, backupCount, -1, history);
      Replace(0, 1);
    }

    /** The renaming loop of `_rotate`; `d` is the directory before it. */
    method ShiftBackups(ghost d: Directory)
      requires Valid() && files == Rotating(d, backupCount, backupCount - 1)
      requires Good(d, maxBytes, backupCount, history)
      modifies this
      ensures Valid() && history == old(history) && old(moments) <= moments
      ensures files == Rotating(d, backupCount, 0)
    {
      for index := backupCount downto 1
        invariant Valid() && history == old(history) && old(moments) <= moments
        invariant files == Rotating(d, backupCount, index - 1)
      {
        RotatingStep(d, backupCount, index);
        RotatingGood(d, maxBytes, backupCount, index - 1, history);
        if index in files {
          Replace(index, index + 1);
        }
      }
    }

    /** `_rotate`: when the line does not fit, shift every backup up by one and retire the live
      file to backup 1. Each rename passes through a good directory. */
    method Rotate(incoming: nat)
      requires Valid()
      modifies this
      ensures Valid() && history == old(history) && old(moments) <= moments
      ensures files == if 0 in old(files) && Bytes(old(files)[0]) + incoming > maxBytes
                       then Rotating(old(files), backupCount, -1) else old(files)
    {
      if 0 !in files { return; }
      if Bytes(files[0]) + incoming <= maxBytes { return; }
      ghost var d := files;
      UnlinkOldest();
      ShiftBackups(d);
      RetireLive(d);
    }

    /** `ensure_ready`: opening for append creates an empty live file. */
    method EnsureReady() returns (ok: bool)
      requires Valid()
      modifies this
      ensures Valid() && history == old(history) && ok == enabled && old(moments) <= moments
      ensures files == if enabled then old(files)[0 := File(old(files), 0)] else old(files)
    {
      if !enabled { return false; }
      assert Good(files[0 := File(files, 0)], maxBytes, backupCount, history) by {
        TouchContents(files, backupCount);
        assert Bytes([]) == 0;
      }
      files := files[0 := File(files, 0)];
      moments := moments + [Moment(files, history)];
      return true;
    }

    /** Write one line at the end of the live file, creating it if it is missing. */
    method Append(line: string)
      requires Valid() && Bytes(File(files, 0)) + |line| <= maxBytes
      modifies this
      ensures Valid() && history == old(history) + [line] && old(moments) <= moments
      ensures files == old(files)[0 := File(old(files), 0) + [line]]
    {
      AppendGood(files, maxBytes, backupCount, history, line);
      files := files[0 := File(files, 0) + [line]];
      history := history + [line];
      moments := moments + [Moment(files, history)];
    }

    /** `record`: rotate if needed, then append one line. */
    method Record(v: Values, recordedAt: string, newId: string) returns (ok: bool)
      requires Valid()
      requires |recordedAt| <= 64 && Visible(newId) && 0 < |newId| <= 64
      modifies this
      ensures Valid() && ok == enabled && old(moments) <= moments
      ensures history == if enabled then old(history) + [RecordLine(v, recordedAt, newId)] else old(history)
      ensures files == if enabled then Appended(old(files), maxBytes, backupCount, RecordLine(v, recordedAt, newId))
                       else old(files)
    {
      if !enabled { return false; }
      var line := RecordLine(v, recordedAt, newId);
      RecordBounded(v, recordedAt, newId);
      Rotate(|line|);
      assert 0 in files ==> Bytes(files[0]) + |line| <= maxBytes by {
        assert !Occupied(old(files), -1, 0);
      }
      assert Bytes([]) == 0;
      Append(line);
      return true;
    }
  }

  /** The directory after one record: the line joins the live file, or starts a new one. */
  ghost function Appended(d: Directory, maxBytes: nat, backups: nat, line: string): Directory
    requires backups >= 1
  {
    var r := if 0 in d && Bytes(d[0]) + |line| > maxBytes then Rotating(d, backups, -1) else d;
    r[0 := File(r, 0) + [line]]
  }

  lemma AppendedGood(d: Directory, maxBytes: nat, backups: nat, history: seq<string>, line: string)
    requires backups >= 1 && Good(d, maxBytes, backups, history) && |line| <= maxBytes
    ensures Good(Appended(d, maxBytes, backups, line), maxBytes, backups, history + [line])
  {
    var r := if 0 in d && Bytes(d[0]) + |line| > maxBytes then Rotating(d, backups, -1) else d;
    if 0 in d && Bytes(d[0]) + |line| > maxBytes {
      RotatingGood(d, maxBytes, backups, -1, history);
      assert !Occupied(d, -1, 0);
    }
    assert Bytes([]) == 0;
    AppendGood(r, maxBytes, backups, history, line);
  }

  ghost function AppendedAll(d: Directory, maxBytes: nat, backups: nat, lines: seq<string>): Directory
    requires backups >= 1
  {
    if lines == [] then d
    else Appended(AppendedAll(d, maxBytes, backups, lines[..|lines| - 1]), maxBytes, backups, lines[|lines| - 1])
  }

  /** From an empty directory, after any records: the backups from the oldest to the newest and
    then the live file are the last records written, in order, in at most backups + 1 files of
    at most maxBytes each; and the newest record is always among them. */
  lemma {:induction false} LogIsASuffix(lines: seq<string>, maxBytes: nat, backups: nat)
    requires backups >= 1 && forall i | 0 <= i < |lines| :: |lines[i]| <= maxBytes
    ensures var d := AppendedAll(map[], maxBytes, backups, lines);
            && SuffixOf(Contents(d, backups), lines)
            && |d| <= backups + 1
            && (forall k | k in d :: k <= backups && Bytes(d[k]) <= maxBytes)
            && (lines != [] ==> Contents(d, backups) != [])
  {
    var d := AppendedAll(map[], maxBytes, backups, lines);
    AllGood(lines, maxBytes, backups);
    FileCount(d, maxBytes, backups, lines);
    if lines != [] {
      var last := lines[|lines| - 1];
      var before := AppendedAll(map[], maxBytes, backups, lines[..|lines| - 1]);
      var r := if 0 in before && Bytes(before[0]) + |last| > maxBytes then Rotating(before, backups, -1) else before;
      ContentsAppend(r, backups, last);
    }
  }

  lemma LastOne(lines: seq<string>)
    requires lines != []
    ensures lines[..|lines| - 1] + [lines[|lines| - 1]] == lines
  {
  }

  lemma {:induction false} AllGood(lines: seq<string>, maxBytes: nat, backups: nat)
    requires backups >= 1 && forall i | 0 <= i < |lines| :: |lines[i]| <= maxBytes
    ensures Good(AppendedAll(map[], maxBytes, backups, lines), maxBytes, backups, lines)
  {
    if lines == [] {
      EmptyContents(backups);
    } else {
      var front, last := lines[..|lines| - 1], lines[|lines| - 1];
      AllGood(front, maxBytes, backups);
      AppendedGood(AppendedAll(map[], maxBytes, backups, front), maxBytes, backups, front, last);
      LastOne(lines);
    }
  }

  lemma {:induction false} EmptyContents(n: nat)
    ensures Contents(map[], n) == []
  {
    if n > 0 { EmptyContents(n - 1); }
  }

  lemma {:induction false} TouchContents(d: Directory, top: nat)
    ensures Contents(d[0 := File(d, 0)], top) == Contents(d, top)
  {
    if top > 0 { TouchContents(d, top - 1); }
  }
}
