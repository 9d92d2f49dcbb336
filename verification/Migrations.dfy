/** The migration runner: load, validate, and apply, with a crash or a failed statement possible at
    every point. The database lock lets one runner in at a time, so runs follow one another. */
module Migrations {
  import opened Wrappers

  datatype Migration = Migration(version: nat, name: string, checksum: string)

  datatype Row = Row(name: string, checksum: string, dirty: bool)

  // ---- loading ----

  /** The versions are 1, 2, 3 and so on. */
  predicate Contiguous(ms: seq<Migration>) { forall i :: 0 <= i < |ms| ==> ms[i].version == i + 1 }

  predicate SortedByVersion(ms: seq<Migration>) { forall i, j :: 0 <= i < j < |ms| ==> ms[i].version <= ms[j].version }

  function Insert(ms: seq<Migration>, m: Migration): seq<Migration> {
    if ms == [] || m.version <= ms[0].version then [m] + ms else [ms[0]] + Insert(ms[1..], m)
  }

  function Sort(ms: seq<Migration>): seq<Migration> {
    if ms == [] then [] else Insert(Sort(ms[1..]), ms[0])
  }

  function Load(files: seq<Migration>): Option<seq<Migration>> {
    if Contiguous(Sort(files)) then Some(Sort(files)) else None
  }

  lemma {:induction false} InsertMembers(ms: seq<Migration>, m: Migration)
    ensures multiset(Insert(ms, m)) == multiset(ms) + multiset{m}
  {
    if ms == [] || m.version <= ms[0].version {
    } else {
      InsertMembers(ms[1..], m);
      assert ms == [ms[0]] + ms[1..];
    }
  }

  lemma {:induction false} SortedCons(m: Migration, rest: seq<Migration>)
    requires SortedByVersion(rest) && forall x :: x in rest ==> m.version <= x.version
    ensures SortedByVersion([m] + rest)
  {
  }

  lemma {:induction false} InsertKeeps(ms: seq<Migration>, m: Migration)
    requires SortedByVersion(ms)
    ensures SortedByVersion(Insert(ms, m)) && multiset(Insert(ms, m)) == multiset(ms) + multiset{m}
  {
    InsertMembers(ms, m);
    if ms == [] || m.version <= ms[0].version {
      SortedCons(m, ms);
    } else {
      InsertKeeps(ms[1..], m);
      var rest := Insert(ms[1..], m);
      forall x | x in rest ensures ms[0].version <= x.version {
        assert x in multiset(rest);
        assert x == m || x in ms[1..];
      }
      SortedCons(ms[0], rest);
    }
  }

  lemma {:induction false} SortKeeps(ms: seq<Migration>)
    ensures SortedByVersion(Sort(ms)) && multiset(Sort(ms)) == multiset(ms) && |Sort(ms)| == |ms|
  {
    if ms != [] {
      SortKeeps(ms[1..]);
      InsertKeeps(Sort(ms[1..]), ms[0]);
      assert ms == [ms[0]] + ms[1..];
    }
    assert |multiset(Sort(ms))| == |Sort(ms)| && |multiset(ms)| == |ms|;
  }

  function Versions(ms: seq<Migration>): set<nat> { set m | m in ms :: m.version }

  /** The versions 1 to n. */
  predicate InRange(v: nat, n: nat) { 1 <= v <= n }

  /** The versions 1 to n. */
  function UpTo(n: nat): set<nat> { set v: nat | 1 <= v <= n && InRange(v, n) }

  lemma {:induction false} UpToSize(n: nat)
    ensures |UpTo(n)| == n && forall v :: v in UpTo(n) <==> 1 <= v <= n
  {
    forall v | 1 <= v <= n ensures v in UpTo(n) { assert InRange(v, n); }
    if n == 0 {
      assert UpTo(0) == {};
    } else {
      UpToSize(n - 1);
      assert UpTo(n) == UpTo(n - 1) + {n};
    }
  }

  lemma {:induction false} ContiguousIsFull(s: seq<Migration>)
    requires Contiguous(s)
    ensures Versions(s) == UpTo(|s|)
  {
    forall v | v in UpTo(|s|) ensures v in Versions(s) { assert s[v - 1] in s; }
  }

  lemma {:induction false} SameVersions(a: seq<Migration>, b: seq<Migration>)
    requires multiset(a) == multiset(b)
    ensures Versions(a) == Versions(b)
  {
    forall m ensures m in a <==> m in b { assert m in multiset(a) <==> m in multiset(b); }
  }

  /** Loading succeeds exactly when n files carry the versions 1 to n, and returns them in order. */
  lemma {:induction false} LoadIff(files: seq<Migration>)
    ensures Load(files).Some? <==> Versions(files) == UpTo(|files|)
    ensures Load(files).Some? ==> Contiguous(Load(files).value) && multiset(Load(files).value) == multiset(files)
  {
    var s := Sort(files);
    SortKeeps(files);
    SameVersions(s, files);
    if Contiguous(s) { ContiguousIsFull(s); }
    if Versions(s) == UpTo(|s|) { FullIsContiguous(s); }
  }

  lemma {:induction false} VersionCount(s: seq<Migration>)
    ensures |Versions(s)| <= |s|
  {
    if s != [] {
      VersionCount(s[1..]);
      assert s == [s[0]] + s[1..];
      assert Versions(s) == Versions(s[1..]) + {s[0].version};
    }
  }

  lemma {:induction false} LastIsHighest(s: seq<Migration>)
    requires s != [] && SortedByVersion(s) && Versions(s) == UpTo(|s|)
    ensures s[|s| - 1].version == |s|
  {
    assert s[|s| - 1] in s && s[|s| - 1].version in Versions(s);
    assert |s| in Versions(s);
    var m :| m in s && m.version == |s|;
  }

  lemma {:induction false} DropHighest(a: set<nat>, n: nat)
    requires n > 0 && a + {n} == UpTo(n) && |a| <= n - 1
    ensures a == UpTo(n - 1)
  {
    UpToSize(n);
    assert n in a ==> a == a + {n};
    assert UpTo(n) == UpTo(n - 1) + {n};
  }

  lemma {:induction false} VersionsSplit(s: seq<Migration>, last: Migration)
    ensures Versions(s + [last]) == Versions(s) + {last.version}
  {
    forall v | v in Versions(s + [last]) ensures v in Versions(s) + {last.version} {
      var m :| m in s + [last] && m.version == v;
      if m != last { assert m in s; }
    }
    forall v | v in Versions(s) ensures v in Versions(s + [last]) {
      var m :| m in s && m.version == v;
      assert m in s + [last];
    }
    assert last in s + [last];
  }

  lemma {:induction false} InitIsFull(s: seq<Migration>)
    requires s != [] && Versions(s) == UpTo(|s|) && s[|s| - 1].version == |s|
    ensures Versions(s[..|s| - 1]) == UpTo(|s| - 1)
  {
    var init, last := s[..|s| - 1], s[|s| - 1];
    assert s == init + [last];
    VersionsSplit(init, last);
    VersionCount(init);
    DropHighest(Versions(init), |s|);
  }

  lemma {:induction false} PrefixSorted(s: seq<Migration>, n: nat)
    requires SortedByVersion(s) && n <= |s|
    ensures SortedByVersion(s[..n])
  {
  }

  lemma {:induction false} FullAt(s: seq<Migration>, n: nat, i: nat)
    requires SortedByVersion(s) && n <= |s| && Versions(s[..n]) == UpTo(n) && i < n
    ensures s[i].version == i + 1
    decreases n
  {
    var head := s[..n];
    PrefixSorted(s, n);
    LastIsHighest(head);
    if i < n - 1 {
      InitIsFull(head);
      assert head[..n - 1] == s[..n - 1];
      FullAt(s, n - 1, i);
    }
  }

  lemma {:induction false} FullIsContiguous(s: seq<Migration>)
    requires SortedByVersion(s) && Versions(s) == UpTo(|s|)
    ensures Contiguous(s)
  {
    forall i | 0 <= i < |s| ensures s[i].version == i + 1 {
      assert s[..|s|] == s;
      FullAt(s, |s|, i);
    }
  }

  // ---- validation ----

  predicate Matches(row: Row, m: Migration) { !row.dirty && row.name == m.name && row.checksum == m.checksum }

  /** The rows are exactly a clean, matching prefix of the migrations. */
  predicate CleanPrefix(rows: map<nat, Row>, ms: seq<Migration>) {
    && |rows| <= |ms| && rows.Keys == UpTo(|rows|)
    && forall v :: 1 <= v <= |rows| ==> v in rows && Matches(rows[v], ms[v - 1])
  }

  // ---- applying ----

  /** Where an Up run is cut short while it applies one migration: by a failed statement, whose effect
      may or may not have reached the database, or by a crash of the process. */
  datatype Fault = NoFault | BeforeInsert | AfterInsert | DuringSql | AfterUpdate

  /** The table of applied migrations, and every migration whose SQL was ever started. */
  datatype State = State(rows: map<nat, Row>, started: seq<Migration>)

  function Marked(s: State, m: Migration): State { s.(rows := s.rows[m.version := Row(m.name, m.checksum, true)]) }

  function Started(s: State, m: Migration): State { s.(started := s.started + [m]) }

  function Finished(s: State, m: Migration): State {
    s.(rows := s.rows[m.version := Row(m.name, m.checksum, false)])
  }

  /** Applying one migration: mark it dirty, run its SQL, mark it clean. */
  function Apply(s: State, m: Migration, fault: Fault): State {
    match fault
    case BeforeInsert => s
    case AfterInsert => Marked(s, m)
    case DuringSql => Started(Marked(s, m), m)
    case _ => Finished(Started(Marked(s, m), m), m)
  }

  /** Applying ms[i..] in order until a fault. */
  function ApplyFrom(s: State, ms: seq<Migration>, i: nat, faults: nat -> Fault): (r: (State, bool))
    requires i <= |ms|
    decreases |ms| - i
  {
    if i == |ms| then (s, true)
    else if faults(ms[i].version) != NoFault then (Apply(s, ms[i], faults(ms[i].version)), false)
    else ApplyFrom(Apply(s, ms[i], NoFault), ms, i + 1, faults)
  }

  /** One Up run of a binary with migrations `ms`. */
  function AfterUp(s: State, ms: seq<Migration>, faults: nat -> Fault): (State, bool) {
    if CleanPrefix(s.rows, ms) then ApplyFrom(s, ms, |s.rows|, faults) else (s, false)
  }

  // ---- what holds after any runs of any binaries ----

  /** Rows 1 to k, all clean but perhaps the last; SQL was started for 1, 2, ... each once, for every
      clean row and for at most one dirty one, under the checksum its row records. */
  ghost predicate Valid(s: State) {
    && s.rows.Keys == UpTo(|s.rows|)
    && |s.started| <= |s.rows| <= |s.started| + 1
    && (forall i :: 0 <= i < |s.started| ==> s.started[i].version == i + 1)
    && (forall v :: v in s.rows && s.rows[v].dirty ==> v == |s.rows|)
    && (forall v :: v in s.rows && !s.rows[v].dirty ==> v <= |s.started|)
    && (forall i :: 0 <= i < |s.started| ==>
          i + 1 in s.rows && s.rows[i + 1].name == s.started[i].name && s.rows[i + 1].checksum == s.started[i].checksum)
  }

  const EMPTY := State(map[], [])

  lemma {:induction false} NextKey(s: State, row: Row)
    requires s.rows.Keys == UpTo(|s.rows|)
    ensures |s.rows| + 1 !in s.rows && |s.rows[|s.rows| + 1 := row]| == |s.rows| + 1
    ensures s.rows[|s.rows| + 1 := row].Keys == UpTo(|s.rows| + 1)
  {
    assert UpTo(|s.rows| + 1) == UpTo(|s.rows|) + {|s.rows| + 1};
  }

  ghost predicate AllClean(s: State) { forall v :: v in s.rows ==> !s.rows[v].dirty }

  lemma {:induction false} MarkedValid(s: State, m: Migration)
    requires Valid(s) && AllClean(s) && m.version == |s.rows| + 1
    ensures Valid(Marked(s, m)) && |Marked(s, m).rows| == m.version == |s.started| + 1
  {
    if |s.rows| > 0 { assert |s.rows| in s.rows; }
    NextKey(s, Row(m.name, m.checksum, true));
  }

  lemma {:induction false} StartedValid(t: State, m: Migration)
    requires Valid(t) && m.version == |t.rows| == |t.started| + 1 && m.version in t.rows
    requires t.rows[m.version] == Row(m.name, m.checksum, true)
    ensures Valid(Started(t, m))
  {
  }

  lemma {:induction false} FinishedValid(u: State, m: Migration)
    requires Valid(u) && m.version == |u.rows| == |u.started| && m.version in u.rows
    requires u.rows[m.version] == Row(m.name, m.checksum, true)
    ensures Valid(Finished(u, m)) && |Finished(u, m).rows| == |u.rows| && AllClean(Finished(u, m))
  {
    assert Finished(u, m).rows.Keys == u.rows.Keys;
    assert |Finished(u, m).rows.Keys| == |u.rows.Keys|;
  }

  lemma {:induction false} ApplyKeepsValid(s: State, m: Migration, fault: Fault)
    requires Valid(s) && AllClean(s) && m.version == |s.rows| + 1
    ensures Valid(Apply(s, m, fault))
    ensures fault.NoFault? ==> |Apply(s, m, fault).rows| == |s.rows| + 1 && AllClean(Apply(s, m, fault))
  {
    MarkedValid(s, m);
    StartedValid(Marked(s, m), m);
    FinishedValid(Started(Marked(s, m), m), m);
  }

  lemma {:induction false} NextApplied(s: State, ms: seq<Migration>, fault: Fault)
    requires Valid(s) && AllClean(s) && Contiguous(ms) && |s.rows| < |ms|
    ensures Valid(Apply(s, ms[|s.rows|], fault))
    ensures fault.NoFault? ==> |Apply(s, ms[|s.rows|], fault).rows| == |s.rows| + 1 && AllClean(Apply(s, ms[|s.rows|], fault))
  {
    ApplyKeepsValid(s, ms[|s.rows|], fault);
  }

  lemma {:induction false} ApplyFromUnfolds(s: State, ms: seq<Migration>, i: nat, faults: nat -> Fault)
    requires i < |ms|
    ensures var fault := faults(ms[i].version);
      ApplyFrom(s, ms, i, faults)
        == if fault != NoFault then (Apply(s, ms[i], fault), false) else ApplyFrom(Apply(s, ms[i], NoFault), ms, i + 1, faults)
  {
  }

  lemma {:induction false} ApplyFromKeepsValid(s: State, ms: seq<Migration>, i: nat, faults: nat -> Fault)
    requires Valid(s) && Contiguous(ms) && i == |s.rows| <= |ms| && AllClean(s)
    ensures Valid(ApplyFrom(s, ms, i, faults).0)
    ensures ApplyFrom(s, ms, i, faults).1 ==>
      var u := ApplyFrom(s, ms, i, faults).0; |u.rows| == |ms| && AllClean(u)
    decreases |ms| - i
  {
    if i < |ms| {
      var fault := faults(ms[i].version);
      ApplyFromUnfolds(s, ms, i, faults);
      NextApplied(s, ms, fault);
      if fault == NoFault { ApplyFromKeepsValid(Apply(s, ms[i], NoFault), ms, i + 1, faults); }
    }
  }

  lemma {:induction false} CleanRows(s: State, ms: seq<Migration>)
    requires CleanPrefix(s.rows, ms)
    ensures AllClean(s)
  {
    forall v | v in s.rows ensures !s.rows[v].dirty {
      assert v in UpTo(|s.rows|);
      assert Matches(s.rows[v], ms[v - 1]);
    }
  }

  lemma {:induction false} UpKeepsValid(s: State, ms: seq<Migration>, faults: nat -> Fault)
    requires Valid(s) && Contiguous(ms)
    ensures Valid(AfterUp(s, ms, faults).0)
  {
    if CleanPrefix(s.rows, ms) {
      CleanRows(s, ms);
      ApplyFromKeepsValid(s, ms, |s.rows|, faults);
    }
  }

  /** A dirty row blocks every later run of every binary. */
  lemma {:induction false} DirtyBlocks(s: State, ms: seq<Migration>, faults: nat -> Fault, v: nat)
    requires v in s.rows && s.rows[v].dirty
    ensures AfterUp(s, ms, faults) == (s, false)
  {
    if CleanPrefix(s.rows, ms) { CleanRows(s, ms); }
  }

  lemma {:induction false} AppliedRows(s: State, m: Migration)
    ensures Apply(s, m, NoFault).rows == s.rows[m.version := Row(m.name, m.checksum, false)]
  {
  }

  lemma {:induction false} OneMoreMatches(rows: map<nat, Row>, ms: seq<Migration>, next: map<nat, Row>, m: Migration)
    requires CleanPrefix(rows, ms) && |rows| < |ms| && m == ms[|rows|] && m.version == |rows| + 1
    requires next == rows[m.version := Row(m.name, m.checksum, false)] && |next| == |rows| + 1
    requires next.Keys == UpTo(|next|)
    ensures CleanPrefix(next, ms)
  {
    forall v | 1 <= v <= |next| ensures v in next && Matches(next[v], ms[v - 1]) {
      if v <= |rows| { assert v in rows && Matches(rows[v], ms[v - 1]); }
    }
  }

  lemma {:induction false} PrefixGrows(s: State, ms: seq<Migration>)
    requires Valid(s) && Contiguous(ms) && CleanPrefix(s.rows, ms) && |s.rows| < |ms|
    ensures Valid(Apply(s, ms[|s.rows|], NoFault)) && CleanPrefix(Apply(s, ms[|s.rows|], NoFault).rows, ms)
    ensures |Apply(s, ms[|s.rows|], NoFault).rows| == |s.rows| + 1
  {
    CleanRows(s, ms);
    ApplyKeepsValid(s, ms[|s.rows|], NoFault);
    AppliedRows(s, ms[|s.rows|]);
    var m := ms[|s.rows|];
    NextKey(s, Row(m.name, m.checksum, false));
    OneMoreMatches(s.rows, ms, Apply(s, m, NoFault).rows, m);
  }

  lemma {:induction false} ApplyFromMatches(s: State, ms: seq<Migration>, i: nat, faults: nat -> Fault)
    requires Valid(s) && Contiguous(ms) && i == |s.rows| && CleanPrefix(s.rows, ms) && ApplyFrom(s, ms, i, faults).1
    ensures CleanPrefix(ApplyFrom(s, ms, i, faults).0.rows, ms) && |ApplyFrom(s, ms, i, faults).0.rows| == |ms|
    decreases |ms| - i
  {
    if i < |ms| {
      PrefixGrows(s, ms);
      ApplyFromMatches(Apply(s, ms[i], NoFault), ms, i + 1, faults);
    }
  }

  /** A run that reports success leaves every migration of the binary applied and clean, and the SQL
      that was ever started is exactly the binary's, each migration once and in order. */
  lemma {:induction false} SuccessAppliesAll(s: State, ms: seq<Migration>, faults: nat -> Fault)
    requires Valid(s) && Contiguous(ms) && AfterUp(s, ms, faults).1
    ensures var u := AfterUp(s, ms, faults).0;
      && CleanPrefix(u.rows, ms) && |u.rows| == |ms| == |u.started|
      && forall i :: 0 <= i < |ms| ==>
          u.started[i].version == i + 1 && u.started[i].name == ms[i].name && u.started[i].checksum == ms[i].checksum
  {
    var u := AfterUp(s, ms, faults).0;
    UpKeepsValid(s, ms, faults);
    ApplyFromMatches(s, ms, |s.rows|, faults);
    CleanRows(u, ms);
    if |u.rows| > 0 { assert |u.rows| in u.rows; }
    forall i | 0 <= i < |ms| ensures u.started[i].name == ms[i].name && u.started[i].checksum == ms[i].checksum {
      assert Matches(u.rows[i + 1], ms[(i + 1) - 1]);
    }
  }

  datatype Run = Run(binary: seq<Migration>, faults: nat -> Fault)

  ghost predicate RunAt(states: seq<State>, runs: seq<Run>, i: nat)
    requires i < |runs| < |states|
  {
    Contiguous(runs[i].binary) && states[i + 1] == AfterUp(states[i], runs[i].binary, runs[i].faults).0
  }

  ghost predicate IsHistory(states: seq<State>, runs: seq<Run>) {
    && |states| == |runs| + 1 && states[0] == EMPTY
    && forall i :: 0 <= i < |runs| ==> RunAt(states, runs, i)
  }

  lemma {:induction false} HistoryValid(states: seq<State>, runs: seq<Run>, n: nat)
    requires IsHistory(states, runs) && n < |states|
    ensures Valid(states[n])
  {
    if n > 0 {
      var last := n - 1;
      HistoryValid(states, runs, last);
      assert RunAt(states, runs, last);
      UpKeepsValid(states[last], runs[last].binary, runs[last].faults);
    }
  }

  /** Over any sequence of runs of any binaries, each cut short anywhere: no migration's SQL starts
      twice, and at most one row is dirty, the one with the highest version. */
  lemma {:induction false} NothingStartsTwice(states: seq<State>, runs: seq<Run>, n: nat)
    requires IsHistory(states, runs) && n < |states|
    ensures forall i, j :: 0 <= i < j < |states[n].started| ==> states[n].started[i].version != states[n].started[j].version
    ensures forall v, w :: v in states[n].rows && w in states[n].rows && states[n].rows[v].dirty ==> w <= v
  {
    HistoryValid(states, runs, n);
    forall v, w | v in states[n].rows && w in states[n].rows && states[n].rows[v].dirty ensures w <= v {
      assert w in UpTo(|states[n].rows|);
    }
  }

  /** Once a run has left a row dirty, nothing changes any more. */
  lemma {:induction false} DirtyIsFinal(states: seq<State>, runs: seq<Run>, n: nat, m: nat, v: nat)
    requires IsHistory(states, runs) && n <= m < |states| && v in states[n].rows && states[n].rows[v].dirty
    ensures states[m] == states[n]
    decreases m
  {
    if n < m {
      var last := m - 1;
      DirtyIsFinal(states, runs, n, last, v);
      assert RunAt(states, runs, last);
      DirtyBlocks(states[last], runs[last].binary, runs[last].faults, v);
    }
  }

  // ---- the runner ----

  /** validateApplied: a scan of the migrations, then of the rows. */
  /** A run that nothing cuts short applies all that is left. */
  lemma {:induction false} ApplyFromSucceedsIff(s: State, ms: seq<Migration>, i: nat, faults: nat -> Fault)
    requires Contiguous(ms) && i <= |ms|
    ensures ApplyFrom(s, ms, i, faults).1 <==> forall v :: i < v <= |ms| ==> faults(v) == NoFault
    decreases |ms| - i
  {
    if i < |ms| {
      ApplyFromUnfolds(s, ms, i, faults);
      if faults(ms[i].version) == NoFault { ApplyFromSucceedsIff(Apply(s, ms[i], NoFault), ms, i + 1, faults); }
    }
  }

  /** A run reports success exactly when the rows are a clean, matching prefix and nothing cuts short one of the
      migrations behind it. */
  lemma {:induction false} UpSucceedsIff(s: State, ms: seq<Migration>, faults: nat -> Fault)
    requires Contiguous(ms)
    ensures AfterUp(s, ms, faults).1 <==>
      CleanPrefix(s.rows, ms) && forall v :: |s.rows| < v <= |ms| ==> faults(v) == NoFault
  {
    if CleanPrefix(s.rows, ms) { ApplyFromSucceedsIff(s, ms, |s.rows|, faults); }
  }

  method ValidateApplied(rows: map<nat, Row>, ms: seq<Migration>) returns (ok: bool)
    requires Contiguous(ms)
    ensures ok <==> CleanPrefix(rows, ms)
  {
    if |rows| > |ms| { return false; }
    for i := 0 to |ms|
      invariant forall v :: 1 <= v <= i && v <= |rows| ==> v in rows && Matches(rows[v], ms[v - 1])
    {
      var m := ms[i];
      if i >= |rows| {
        if m.version in rows {
          assert m.version !in UpTo(|rows|);
          return false;
        }
      } else {
        if m.version !in rows {
          assert m.version in UpTo(|rows|);
          return false;
        }
        if rows[m.version].dirty { return false; }
        if rows[m.version].name != m.name || rows[m.version].checksum != m.checksum { return false; }
      }
    }
    var todo := rows.Keys;
    while todo != {}
      invariant todo <= rows.Keys
      decreases todo
    {
      var v :| v in todo;
      if v < 1 || v > |ms| {
        assert v !in UpTo(|rows|);
        return false;
      }
      todo := todo - {v};
    }
    assert UpTo(|rows|) <= rows.Keys;
    UpToSize(|rows|);
    SubsetOfSameSize(UpTo(|rows|), rows.Keys);
    return true;
  }

  lemma {:induction false} SubsetOfSameSize(a: set<nat>, b: set<nat>)
    requires a <= b && |a| == |b|
    ensures a == b
  {
    assert b == a + (b - a);
  }

  class Database {
    var rows: map<nat, Row>
    var started: seq<Migration>

    ghost function Contents(): State
      reads this
    {
      State(rows, started)
    }

    constructor ()
      ensures Contents() == EMPTY
    {
      rows, started := map[], [];
    }

    /** One migration: mark it, run it, mark it done, unless a fault cuts it short. */
    method ApplyOne(m: Migration, fault: Fault) returns (ok: bool)
      modifies this
      ensures Contents() == Apply(old(Contents()), m, fault) && ok == fault.NoFault?
    {
      if fault == BeforeInsert { return false; }
      rows := rows[m.version := Row(m.name, m.checksum, true)];
      if fault == AfterInsert { return false; }
      started := started + [m];
      if fault == DuringSql { return false; }
      rows := rows[m.version := Row(m.name, m.checksum, false)];
      return fault != AfterUpdate;
    }

    /** Up: the loop passes over the applied migrations, which have just been validated, and applies the others. */
    method Up(ms: seq<Migration>, faults: nat -> Fault) returns (ok: bool)
      requires Contiguous(ms)
      modifies this
      ensures (Contents(), ok) == AfterUp(old(Contents()), ms, faults)
    {
      ghost var before := Contents();
      var valid := ValidateApplied(rows, ms);
      if !valid { return false; }
      var applied := rows;
      for i := 0 to |ms|
        invariant i <= |applied| ==> Contents() == before
        invariant i >= |applied| ==> ApplyFrom(Contents(), ms, i, faults) == ApplyFrom(before, ms, |applied|, faults)
      {
        assert ms[i].version in applied <==> i < |applied| by {
          assert ms[i].version in UpTo(|applied|) <==> i < |applied|;
        }
        if ms[i].version !in applied {
          ApplyFromUnfolds(Contents(), ms, i, faults);
          ok := ApplyOne(ms[i], faults(ms[i].version));
          if !ok { return; }
        }
      }
      return true;
    }

    /** Check: the current version is the number of applied migrations. */
    method Check(ms: seq<Migration>) returns (ok: bool, current: nat, pending: nat)
      requires Contiguous(ms)
      ensures ok <==> CleanPrefix(rows, ms)
      ensures ok ==> current == |rows| && pending == |ms| - |rows|
    {
      current, pending := 0, 0;
      ok := ValidateApplied(rows, ms);
      if !ok { return; }
      var todo := rows.Keys;
      while todo != {}
        invariant todo <= rows.Keys && current <= |rows|
        invariant forall v :: v in rows ==> v in todo || v <= current
        decreases todo
      {
        var v :| v in todo;
        assert v in UpTo(|rows|);
        if v > current { current := v; }
        todo := todo - {v};
      }
      if |rows| > 0 { assert |rows| in UpTo(|rows|); }
      pending := |ms| - |rows|;
    }
  }
}
