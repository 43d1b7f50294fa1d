/** The rotating log file: backups `.1` (newest) to `.N` (oldest) and the live
    file, with file operations that succeed. */
module Rotation {
  import opened Text

  datatype Config = Config(maxSize: nat, maxFiles: nat)

  /** The directory: the live file and the numbered backups. */
  datatype Files = Files(live: string, backups: map<nat, string>)

  ghost predicate Ok(c: Config, f: Files) {
    c.maxFiles >= 1 && 0 !in f.backups
  }

  function Get(backups: map<nat, string>, k: nat): Option<string> {
    if k in backups then Some(backups[k]) else None
  }

  lemma SameFiles(a: map<nat, string>, b: map<nat, string>)
    requires forall k: nat :: Get(a, k) == Get(b, k)
    ensures a == b
  {
    forall k: nat ensures k in a <==> k in b {
      assert Get(a, k) == Get(b, k);
    }
    forall k: nat | k in a ensures a[k] == b[k] {
      assert Get(a, k) == Get(b, k);
    }
  }

  // ----- what is still readable -----

  /** Backups `n` down to 1, that is oldest to newest. */
  function Archive(backups: map<nat, string>, n: nat): string {
    if n == 0 then ""
    else
      var file := Get(backups, n);
      (if file.Some? then file.value else "") + Archive(backups, n - 1)
  }

  ghost predicate Above(backups: map<nat, string>, n: nat) {
    forall i: nat :: i > n ==> Get(backups, i) == None
  }

  ghost predicate IsSuffix(a: string, b: string) {
    |a| <= |b| && a == b[|b| - |a|..]
  }

  // ----- one write -----

  /** What file `k` holds after a shift: the generation below it, when that is
      under the ceiling. */
  function Moved(was: map<nat, string>, maxFiles: nat, k: nat): Option<string> {
    if k > 0 && k - 1 < maxFiles then Get(was, k - 1) else None
  }

  /** Every generation below the ceiling moves up by one, the rest go. */
  function Shifted(backups: map<nat, string>, maxFiles: nat): (r: map<nat, string>)
    ensures forall k: nat {:trigger Get(r, k)} :: Get(r, k) == Moved(backups, maxFiles, k)
  {
    if maxFiles == 0 then map[]
    else
      var rest := Shifted(backups, maxFiles - 1);
      var all := if maxFiles - 1 in backups then rest[maxFiles := backups[maxFiles - 1]] else rest;
      assert forall k: nat :: Get(all, k) == if k == maxFiles then Get(backups, k - 1) else Get(rest, k) by {
        assert Get(rest, maxFiles) == None;
      }
      all
  }

  function RotateStep(c: Config, f: Files): Files {
    if c.maxSize == 0 || |f.live| < c.maxSize then f
    else Files("", Shifted(f.backups, c.maxFiles)[1 := f.live])
  }

  function LogStep(c: Config, f: Files, line: string): Files {
    RotateStep(c, f.(live := f.live + line))
  }

  // ----- the logger -----

  class FileLogger {
    const config: Config
    var live: string
    var size: nat
    var backups: map<nat, string>

    ghost predicate Valid()
      reads this
    {
      size == |live| && Ok(config, Files(live, backups))
    }

    ghost function View(): Files
      reads this
    {
      Files(live, backups)
    }

    /** Opens an existing or new log; a configured ceiling of 0 counts as 1. */
    constructor (maxSize: nat, maxFiles: nat, files: Files)
      requires 0 !in files.backups
      ensures config == Config(maxSize, if maxFiles < 1 then 1 else maxFiles) && View() == files && Valid()
    {
      config := Config(maxSize, if maxFiles < 1 then 1 else maxFiles);
      live, size, backups := files.live, |files.live|, files.backups;
    }

    method Log(line: string)
      requires Valid()
      modifies this
      ensures Valid() && View() == LogStep(config, old(View()), line)
    {
      live := live + line;
      size := size + |line|;
      Rotate();
    }

    /** Shifts the existing generations, newest last, then the live file. */
    method Rotate()
      requires Valid()
      modifies this
      ensures Valid() && View() == RotateStep(config, old(View()))
    {
      if config.maxSize == 0 || size < config.maxSize {
        return;
      }
      assert Get(backups, 0) == None;
      ShiftBackups();
      assert Get(backups, 0) == None;
      backups := backups[1 := live];
      live, size := "", 0;
    }

    method ShiftBackups()
      requires Valid()
      modifies this`backups
      ensures backups == Shifted(old(backups), config.maxFiles)
    {
      var left := backups.Keys;
      var files: map<nat, string> := backups;
      ghost var was := backups;
      while left != {}
        invariant Descending(was, left)
        invariant Shifting(was, config.maxFiles, left, files) && backups == files
      {
        var i := Largest(left);
        ghost var before := files;
        assert Get(files, i) == Get(was, i);
        if i >= config.maxFiles {
          files := files - {i};
        } else {
          files := files[i + 1 := files[i]] - {i};
        }
        backups := files;
        ShiftingStep(was, config.maxFiles, left, i, before, files);
        left := left - {i};
      }
      SameFiles(files, Shifted(was, config.maxFiles));
    }
  }

  method Largest(s: set<nat>) returns (m: nat)
    requires s != {}
    ensures IsLargest(s, m)
  {
    m :| m in s;
    var left := s - {m};
    while left != {}
      invariant left <= s && m in s && forall x :: x in s && x !in left ==> x <= m
    {
      var x :| x in left;
      if x > m {
        m := x;
      }
      left := left - {x};
    }
  }

  /** The directory while the generations of `left` are still to be moved. */
  ghost predicate Shifting(was: map<nat, string>, maxFiles: nat, left: set<nat>, now: map<nat, string>) {
    forall k: nat {:trigger Get(now, k)} :: Get(now, k) ==
      if k in left then Get(was, k) else if k > 0 && k - 1 in left then None else Moved(was, maxFiles, k)
  }

  /** The generations still to be moved are the smallest ones. */
  ghost predicate Descending(was: map<nat, string>, left: set<nat>) {
    left <= was.Keys && forall x, y :: x in left && y in was && y !in left ==> x < y
  }

  ghost predicate IsLargest(left: set<nat>, i: nat) {
    i in left && forall x :: x in left ==> x <= i
  }

  /** Moving the largest generation left keeps the others as they should be: its
      new number is free, since every larger one has moved already. */
  lemma ShiftingStep(
    was: map<nat, string>, maxFiles: nat, left: set<nat>, i: nat, now: map<nat, string>, next: map<nat, string>)
    requires Shifting(was, maxFiles, left, now) && Descending(was, left) && IsLargest(left, i) && i in now
    requires next == if i >= maxFiles then now - {i} else now[i + 1 := now[i]] - {i}
    ensures Shifting(was, maxFiles, left - {i}, next) && Descending(was, left - {i})
  {
    var rest := left - {i};
    forall k: nat {:trigger Get(next, k)}
      ensures Get(next, k) ==
        if k in rest then Get(was, k) else if k > 0 && k - 1 in rest then None else Moved(was, maxFiles, k)
    {
      assert Get(now, k) ==
        if k in left then Get(was, k) else if k > 0 && k - 1 in left then None else Moved(was, maxFiles, k);
      assert Get(now, i) == Get(was, i);
      if k == i && i > 0 && i - 1 !in rest {
        assert i - 1 !in was;
      }
    }
  }

  // ----- what a run keeps -----

  lemma {:induction false} ArchiveTop(backups: map<nat, string>, n: nat, m: nat)
    requires Above(backups, n) && n <= m
    ensures Archive(backups, m) == Archive(backups, n)
    decreases m
  {
    if n < m {
      ArchiveTop(backups, n, m - 1);
    }
  }

  lemma {:induction false} ArchiveTail(backups: map<nat, string>, n: nat, m: nat)
    requires m <= n
    ensures IsSuffix(Archive(backups, m), Archive(backups, n))
    decreases n
  {
    if m < n {
      ArchiveTail(backups, n - 1, m);
    }
  }

  lemma {:induction false} ArchiveShifted(backups: map<nat, string>, maxFiles: nat, live: string, n: nat)
    requires 0 !in backups && n < maxFiles
    ensures Archive(Shifted(backups, maxFiles)[1 := live], n + 1) == Archive(backups, n) + live
    decreases n
  {
    var after := Shifted(backups, maxFiles)[1 := live];
    assert Get(after, n + 1) == if n == 0 then Some(live) else Get(Shifted(backups, maxFiles), n + 1);
    if n == 0 {
      assert Archive(after, 0) == "";
    } else {
      ArchiveShifted(backups, maxFiles, live, n - 1);
      assert Get(after, n + 1) == Get(backups, n);
    }
  }

  /** Everything still readable, oldest first. */
  ghost function Retained(f: Files, top: nat): string {
    Archive(f.backups, top) + f.live
  }

  lemma SuffixAppend(a: string, b: string, line: string)
    requires IsSuffix(a, b)
    ensures IsSuffix(a + line, b + line)
  {
  }

  lemma SuffixTransitive(a: string, b: string, c: string)
    requires IsSuffix(a, b) && IsSuffix(b, c)
    ensures IsSuffix(a, c)
  {
  }

  /** Rotation loses the generations at the ceiling and nothing else, and leaves
      the backups numbered 1 to the ceiling. */
  lemma RotateKeeps(c: Config, f: Files, top: nat)
    requires Ok(c, f) && Above(f.backups, top) && top >= c.maxFiles
    ensures
      var g := RotateStep(c, f);
      && Ok(c, g) && Above(g.backups, top)
      && IsSuffix(Retained(g, top), Retained(f, top))
      && (g != f ==> Above(g.backups, c.maxFiles))
      && (Above(f.backups, c.maxFiles - 1) ==> Retained(g, top) == Retained(f, top))
  {
    var g := RotateStep(c, f);
    if g != f {
      var kept := c.maxFiles - 1;
      ArchiveShifted(f.backups, c.maxFiles, f.live, kept);
      forall i: nat | i > c.maxFiles ensures Get(g.backups, i) == None {
        assert Get(Shifted(f.backups, c.maxFiles), i) == None;
      }
      assert Get(Shifted(f.backups, c.maxFiles), 0) == None;
      ArchiveTop(g.backups, c.maxFiles, top);
      ArchiveTail(f.backups, top, kept);
      SuffixAppend(Archive(f.backups, kept), Archive(f.backups, top), f.live);
      assert Retained(g, top) == Archive(f.backups, kept) + f.live;
      if Above(f.backups, kept) {
        ArchiveTop(f.backups, kept, top);
      }
    }
  }

  function RunLog(c: Config, f: Files, lines: seq<string>): Files {
    if lines == [] then f else LogStep(c, RunLog(c, f, lines[..|lines| - 1]), lines[|lines| - 1])
  }

  function Written(lines: seq<string>): string {
    if lines == [] then "" else Written(lines[..|lines| - 1]) + lines[|lines| - 1]
  }

  /** After any run of writes, the backups oldest to newest and then the live
      file are a suffix of everything ever written. */
  lemma {:induction false} LogIsASuffix(c: Config, f: Files, lines: seq<string>, top: nat)
    requires Ok(c, f) && Above(f.backups, top) && top >= c.maxFiles
    ensures Ok(c, RunLog(c, f, lines)) && Above(RunLog(c, f, lines).backups, top)
    ensures IsSuffix(Retained(RunLog(c, f, lines), top), Retained(f, top) + Written(lines))
    decreases |lines|
  {
    if lines == [] {
      assert Retained(f, top) + "" == Retained(f, top);
    } else {
      var prefix, line := lines[..|lines| - 1], lines[|lines| - 1];
      LogIsASuffix(c, f, prefix, top);
      LogStepSuffix(c, RunLog(c, f, prefix), line, top, Retained(f, top) + Written(prefix));
      Regroup(Retained(f, top), Written(prefix), line);
    }
  }

  lemma Regroup(a: string, b: string, c: string)
    ensures a + (b + c) == a + b + c
  {
  }

  lemma LogStepSuffix(c: Config, g: Files, line: string, top: nat, all: string)
    requires Ok(c, g) && Above(g.backups, top) && top >= c.maxFiles && IsSuffix(Retained(g, top), all)
    ensures
      var h := LogStep(c, g, line);
      Ok(c, h) && Above(h.backups, top) && IsSuffix(Retained(h, top), all + line)
  {
    var h := g.(live := g.live + line);
    SuffixAppend(Retained(g, top), all, line);
    assert Retained(h, top) == Retained(g, top) + line;
    RotateKeeps(c, h, top);
    SuffixTransitive(Retained(RotateStep(c, h), top), Retained(h, top), all + line);
  }

  /** From a fresh log: the suffix is of the whole log, and the backups are
      numbered 1 to the ceiling. */
  lemma FreshLog(c: Config, lines: seq<string>)
    requires c.maxFiles >= 1
    ensures
      var f := RunLog(c, Files("", map[]), lines);
      && IsSuffix(Retained(f, c.maxFiles), Written(lines))
      && forall i: nat :: i in f.backups ==> 1 <= i <= c.maxFiles
  {
    var f := Files("", map[]);
    LogIsASuffix(c, f, lines, c.maxFiles);
    ArchiveTop(map[], 0, c.maxFiles);
    var g := RunLog(c, f, lines);
    forall i: nat | i in g.backups ensures 1 <= i <= c.maxFiles {
      assert i > c.maxFiles ==> Get(g.backups, i) == None;
    }
    assert Retained(f, c.maxFiles) + Written(lines) == Written(lines);
  }

  // ----- how much a fresh log retains -----

  /** Exactly the backups 1 to `n` exist, each at least a full file. */
  ghost predicate Dense(c: Config, f: Files, n: nat) {
    forall i: nat {:trigger Get(f.backups, i)} ::
      if 1 <= i <= n then Get(f.backups, i).Some? && |Get(f.backups, i).value| >= c.maxSize
      else Get(f.backups, i) == None
  }

  lemma RotateDense(c: Config, f: Files, n: nat)
    requires c.maxFiles >= 1 && n <= c.maxFiles && Dense(c, f, n) && RotateStep(c, f) != f
    ensures Dense(c, RotateStep(c, f), if n < c.maxFiles then n + 1 else n)
  {
    var g := RotateStep(c, f);
    forall i: nat
      ensures Get(g.backups, i) == if i == 1 then Some(f.live) else Moved(f.backups, c.maxFiles, i)
    {
      assert Get(Shifted(f.backups, c.maxFiles), i) == Moved(f.backups, c.maxFiles, i);
    }
  }

  /** As long as the last generation was never needed, nothing was lost. */
  lemma {:induction false} FreshRun(c: Config, lines: seq<string>) returns (n: nat)
    requires c.maxFiles >= 1
    ensures
      var f := RunLog(c, Files("", map[]), lines);
      n <= c.maxFiles && Dense(c, f, n) && (n < c.maxFiles ==> Retained(f, c.maxFiles) == Written(lines))
    decreases |lines|
  {
    if lines == [] {
      ArchiveTop(map[], 0, c.maxFiles);
      return 0;
    }
    var prefix, line := lines[..|lines| - 1], lines[|lines| - 1];
    n := FreshRun(c, prefix);
    var f := RunLog(c, Files("", map[]), prefix);
    var h := f.(live := f.live + line);
    assert Get(f.backups, 0) == None;
    assert Dense(c, h, n) && Retained(h, c.maxFiles) == Retained(f, c.maxFiles) + line;
    RotateKeeps(c, h, c.maxFiles);
    if RotateStep(c, h) != h {
      RotateDense(c, h, n);
      n := if n < c.maxFiles then n + 1 else n;
    }
  }

  lemma {:induction false} DenseLength(c: Config, f: Files, n: nat, k: nat)
    requires k <= n && Dense(c, f, n)
    ensures |Archive(f.backups, k)| >= k * c.maxSize
    decreases k
  {
    if k > 0 {
      DenseLength(c, f, n, k - 1);
      assert Get(f.backups, k).Some?;
      assert k * c.maxSize == (k - 1) * c.maxSize + c.maxSize;
    }
  }

  /** A fresh log still holds everything that was written, or as many full files
      as it may keep. */
  lemma RetainsEnough(c: Config, lines: seq<string>)
    requires c.maxFiles >= 1
    ensures
      var f := RunLog(c, Files("", map[]), lines);
      Retained(f, c.maxFiles) == Written(lines) || |Retained(f, c.maxFiles)| >= c.maxFiles * c.maxSize
  {
    var n := FreshRun(c, lines);
    if n == c.maxFiles {
      DenseLength(c, RunLog(c, Files("", map[]), lines), n, n);
    }
  }

  // ----- when a log rotates -----

  /** A log with a size limit rotates exactly when the live file has reached it:
      the file becomes backup 1, every backup below the ceiling moves up by one and
      the one at it goes. */
  lemma RotatesExactly(c: Config, f: Files, k: nat)
    requires Ok(c, f) && k >= 1
    ensures
      var g := RotateStep(c, f);
      if c.maxSize > 0 && |f.live| >= c.maxSize
      then g.live == "" && Get(g.backups, 1) == Some(f.live)
           && Get(g.backups, k + 1) == if k < c.maxFiles then Get(f.backups, k) else None
      else g == f
  {
    assert Get(Shifted(f.backups, c.maxFiles), k + 1) == Moved(f.backups, c.maxFiles, k + 1);
  }

  /** After every write the live file is below the limit, if there is one, and
      without one everything stays in it. */
  lemma LiveIsBounded(c: Config, f: Files, lines: seq<string>)
    requires lines != []
    ensures c.maxSize > 0 ==> |RunLog(c, f, lines).live| < c.maxSize
    ensures c.maxSize == 0 ==> RunLog(c, f, lines) == f.(live := f.live + Written(lines))
  {
    if c.maxSize == 0 {
      NeverRotates(c, f, lines);
    }
  }

  lemma {:induction false} NeverRotates(c: Config, f: Files, lines: seq<string>)
    requires c.maxSize == 0
    ensures RunLog(c, f, lines) == f.(live := f.live + Written(lines))
    decreases |lines|
  {
    if lines == [] {
      assert f.live + "" == f.live;
    } else {
      NeverRotates(c, f, lines[..|lines| - 1]);
      Regroup(f.live, Written(lines[..|lines| - 1]), lines[|lines| - 1]);
    }
  }
}
