/** The timers of a node: a multimap from due time to timer, whose entries are fired by a
    periodic pass. The callbacks start and stop timers while the pass is under way. */
module Timer {
  type TimerId = nat

  datatype Entry = Entry(due: int, timer: TimerId)

  /** What a callback does, each at its own reading of the clock. */
  datatype Action = Start(timer: TimerId, at: int) | Stop(timer: TimerId)

  /** What the callbacks do: for the `n`th firing of a pass, the actions and whether the
      timer wants to go on. */
  type Behaviour = (nat, TimerId) -> (seq<Action>, bool)

  /** The multimap in order, and which timers consider themselves running. */
  datatype Wheel = Wheel(entries: seq<Entry>, running: set<TimerId>)

  ghost predicate Sorted(s: seq<Entry>) {
    forall i, j :: 0 <= i < j < |s| ==> s[i].due <= s[j].due
  }

  /** A new entry goes behind those with the same key. */
  function Insert(s: seq<Entry>, e: Entry): seq<Entry> {
    if s != [] && s[0].due <= e.due then [s[0]] + Insert(s[1..], e) else [e] + s
  }

  function Without(s: seq<Entry>, t: TimerId): seq<Entry> {
    if s == [] then [] else (if s[0].timer == t then [] else [s[0]]) + Without(s[1..], t)
  }

  function Apply(w: Wheel, a: Action, timeout: TimerId -> nat): Wheel {
    match a
    case Start(t, at) =>
      if t in w.running then w else Wheel(Insert(w.entries, Entry(at + timeout(t), t)), w.running + {t})
    case Stop(t) =>
      if t !in w.running then w else Wheel(Without(w.entries, t), w.running - {t})
  }

  function ApplyAll(w: Wheel, acts: seq<Action>, timeout: TimerId -> nat): Wheel
    decreases |acts|
  {
    if acts == [] then w else ApplyAll(Apply(w, acts[0], timeout), acts[1..], timeout)
  }

  /** One firing: the entry is erased, the callback acts, and a timer that goes on is due
      again a timeout from now. */
  function Fire(w: Wheel, now: int, acts: seq<Action>, keep: bool, timeout: TimerId -> nat): Wheel
    requires w.entries != []
  {
    var t := w.entries[0].timer;
    var w' := ApplyAll(w.(entries := w.entries[1..]), acts, timeout);
    if keep then w'.(entries := Insert(w'.entries, Entry(now + timeout(t), t))) else w'
  }

  /** How many entries are due. */
  function Due(s: seq<Entry>, now: int): nat {
    if s == [] then 0 else (if s[0].due <= now then 1 else 0) + Due(s[1..], now)
  }

  /** Callbacks read clocks that are not behind the pass. */
  ghost predicate Timely(acts: seq<Action>, now: int) {
    forall i :: 0 <= i < |acts| && acts[i].Start? ==> acts[i].at >= now
  }

  /** What callbacks start is not due at once. */
  ghost predicate Postponed(acts: seq<Action>, now: int, timeout: TimerId -> nat) {
    forall i :: 0 <= i < |acts| && acts[i].Start? ==> acts[i].at + timeout(acts[i].timer) > now
  }

  lemma {:induction false} InsertMembers(s: seq<Entry>, e: Entry)
    ensures forall x :: x in Insert(s, e) <==> x == e || x in s
    ensures |Insert(s, e)| == |s| + 1
  {
    if s != [] && s[0].due <= e.due {
      InsertMembers(s[1..], e);
    }
  }

  lemma {:induction false} InsertSorted(s: seq<Entry>, e: Entry)
    requires Sorted(s)
    ensures Sorted(Insert(s, e))
  {
    if s != [] && s[0].due <= e.due {
      InsertSorted(s[1..], e);
      InsertMembers(s[1..], e);
      var r := Insert(s[1..], e);
      forall j | 0 <= j < |r|
        ensures s[0].due <= r[j].due
      {
        assert r[j] in r;
      }
    }
  }

  /** A new entry goes into a sorted map behind just those that are not due later. */
  lemma {:induction false} InsertPlaces(s: seq<Entry>, e: Entry) returns (k: nat)
    requires Sorted(s)
    ensures k <= |s| && Insert(s, e) == s[..k] + [e] + s[k..]
    ensures forall i :: 0 <= i < |s| ==> (s[i].due <= e.due <==> i < k)
  {
    k := 0;
    if s != [] && s[0].due <= e.due {
      var j := InsertPlaces(s[1..], e);
      k := j + 1;
      assert [s[0]] + (s[1..][..j] + [e] + s[1..][j..]) == s[..k] + [e] + s[k..];
      forall i | 0 <= i < |s|
        ensures s[i].due <= e.due <==> i < k
      {
        assert i > 0 ==> s[1..][i - 1] == s[i];
      }
    }
  }

  lemma {:induction false} InsertDue(s: seq<Entry>, e: Entry, now: int)
    ensures Due(Insert(s, e), now) == Due(s, now) + if e.due <= now then 1 else 0
  {
    var r := Insert(s, e);
    if s != [] && s[0].due <= e.due {
      InsertDue(s[1..], e, now);
      assert r[1..] == Insert(s[1..], e);
    } else {
      assert r[1..] == s;
    }
  }

  lemma {:induction false} WithoutMembers(s: seq<Entry>, t: TimerId)
    ensures forall x :: x in Without(s, t) <==> x in s && x.timer != t
  {
    if s != [] {
      WithoutMembers(s[1..], t);
    }
  }

  lemma {:induction false} WithoutSorted(s: seq<Entry>, t: TimerId)
    requires Sorted(s)
    ensures Sorted(Without(s, t))
  {
    if s != [] {
      WithoutSorted(s[1..], t);
      WithoutMembers(s[1..], t);
      var r := Without(s[1..], t);
      forall j | 0 <= j < |r|
        ensures s[0].due <= r[j].due
      {
        assert r[j] in r;
      }
    }
  }

  lemma {:induction false} WithoutDue(s: seq<Entry>, t: TimerId, now: int)
    ensures Due(Without(s, t), now) <= Due(s, now)
  {
    if s != [] {
      WithoutDue(s[1..], t, now);
      if s[0].timer != t {
        assert ([s[0]] + Without(s[1..], t))[1..] == Without(s[1..], t);
      } else {
        assert [] + Without(s[1..], t) == Without(s[1..], t);
      }
    }
  }

  // ----- what every firing keeps

  datatype Firing = Firing(timer: TimerId, at: int)

  ghost predicate Unique(s: seq<Entry>) {
    forall i, j :: 0 <= i < j < |s| ==> s[i].timer != s[j].timer
  }

  /** Every entry of a timer that has fired is due no sooner than a timeout after it. */
  ghost predicate NotSooner(s: seq<Entry>, log: seq<Firing>, timeout: TimerId -> nat) {
    forall e, f :: e in s && f in log && e.timer == f.timer ==> e.due >= f.at + timeout(f.timer)
  }

  ghost predicate Spaced(log: seq<Firing>, timeout: TimerId -> nat) {
    forall i, j :: 0 <= i < j < |log| && log[i].timer == log[j].timer ==> log[j].at >= log[i].at + timeout(log[i].timer)
  }

  ghost predicate Past(log: seq<Firing>, now: int) {
    forall f :: f in log ==> f.at <= now
  }

  /** The multimap is in order, holds one entry at most for each timer, and only for
      running ones; no entry comes too soon after a firing. */
  ghost predicate Sound(w: Wheel, log: seq<Firing>, timeout: TimerId -> nat) {
    && Sorted(w.entries) && Unique(w.entries)
    && (forall e :: e in w.entries ==> e.timer in w.running)
    && NotSooner(w.entries, log, timeout)
  }

  lemma {:induction false} NoTwin(s: seq<Entry>, x: Entry)
    requires Unique(s) && s != []
    ensures x in s[1..] ==> x.timer != s[0].timer
  {
  }

  lemma {:induction false} InsertUnique(s: seq<Entry>, e: Entry)
    requires Unique(s) && forall x :: x in s ==> x.timer != e.timer
    ensures Unique(Insert(s, e))
  {
    if s != [] && s[0].due <= e.due {
      InsertUnique(s[1..], e);
      InsertMembers(s[1..], e);
      var r := Insert(s[1..], e);
      forall j | 0 <= j < |r|
        ensures s[0].timer != r[j].timer
      {
        assert r[j] in r;
        NoTwin(s, r[j]);
      }
    }
  }

  lemma {:induction false} WithoutUnique(s: seq<Entry>, t: TimerId)
    requires Unique(s)
    ensures Unique(Without(s, t))
  {
    if s != [] {
      WithoutUnique(s[1..], t);
      WithoutMembers(s[1..], t);
      var r := Without(s[1..], t);
      forall j | 0 <= j < |r|
        ensures s[0].timer != r[j].timer
      {
        assert r[j] in r;
        NoTwin(s, r[j]);
      }
    }
  }

  /** Of the entries due, no two are of one timer. */
  ghost predicate UniqueDue(s: seq<Entry>, now: int) {
    forall i, j :: 0 <= i < j < |s| && s[i].due <= now && s[j].due <= now ==> s[i].timer != s[j].timer
  }

  lemma {:induction false} NoTwinDue(s: seq<Entry>, now: int, x: Entry)
    requires UniqueDue(s, now) && s != [] && s[0].due <= now
    ensures x in s[1..] && x.due <= now ==> x.timer != s[0].timer
  {
  }

  lemma {:induction false} InsertUniqueDue(s: seq<Entry>, e: Entry, now: int)
    requires UniqueDue(s, now) && e.due > now
    ensures UniqueDue(Insert(s, e), now)
  {
    if s != [] && s[0].due <= e.due {
      InsertUniqueDue(s[1..], e, now);
      InsertMembers(s[1..], e);
      var r := Insert(s[1..], e);
      forall j | 0 <= j < |r| && s[0].due <= now && r[j].due <= now
        ensures s[0].timer != r[j].timer
      {
        assert r[j] in r;
        NoTwinDue(s, now, r[j]);
      }
    }
  }

  lemma {:induction false} WithoutUniqueDue(s: seq<Entry>, t: TimerId, now: int)
    requires UniqueDue(s, now)
    ensures UniqueDue(Without(s, t), now)
  {
    if s != [] {
      WithoutUniqueDue(s[1..], t, now);
      WithoutMembers(s[1..], t);
      var r := Without(s[1..], t);
      forall j | 0 <= j < |r| && s[0].due <= now && r[j].due <= now
        ensures s[0].timer != r[j].timer
      {
        assert r[j] in r;
        NoTwinDue(s, now, r[j]);
      }
    }
  }

  lemma {:induction false} InsertSound(w: Wheel, e: Entry, log: seq<Firing>, timeout: TimerId -> nat)
    requires Sound(w, log, timeout) && (forall x :: x in w.entries ==> x.timer != e.timer)
    requires forall f :: f in log && f.timer == e.timer ==> e.due >= f.at + timeout(f.timer)
    ensures Sound(Wheel(Insert(w.entries, e), w.running + {e.timer}), log, timeout)
  {
    InsertMembers(w.entries, e);
    InsertSorted(w.entries, e);
    InsertUnique(w.entries, e);
  }

  lemma {:induction false} StopSound(w: Wheel, t: TimerId, log: seq<Firing>, timeout: TimerId -> nat)
    requires Sound(w, log, timeout)
    ensures Sound(Wheel(Without(w.entries, t), w.running - {t}), log, timeout)
  {
    WithoutMembers(w.entries, t);
    WithoutSorted(w.entries, t);
    WithoutUnique(w.entries, t);
  }

  lemma {:induction false} ApplySound(w: Wheel, a: Action, log: seq<Firing>, now: int, timeout: TimerId -> nat)
    requires Sound(w, log, timeout) && Past(log, now) && (a.Start? ==> a.at >= now)
    ensures Sound(Apply(w, a, timeout), log, timeout)
  {
    match a {
      case Start(t, at) =>
        if t !in w.running {
          InsertSound(w, Entry(at + timeout(t), t), log, timeout);
        }
      case Stop(t) => StopSound(w, t, log, timeout);
    }
  }

  lemma {:induction false} ApplyDue(w: Wheel, a: Action, now: int, timeout: TimerId -> nat)
    requires a.Start? ==> a.at + timeout(a.timer) > now
    ensures Due(Apply(w, a, timeout).entries, now) <= Due(w.entries, now)
  {
    match a {
      case Start(t, at) => InsertDue(w.entries, Entry(at + timeout(t), t), now);
      case Stop(t) => WithoutDue(w.entries, t, now);
    }
  }

  lemma {:induction false} ApplyAllSound(w: Wheel, acts: seq<Action>, log: seq<Firing>, now: int,
                                         timeout: TimerId -> nat)
    requires Sound(w, log, timeout) && Past(log, now) && Timely(acts, now)
    ensures Sound(ApplyAll(w, acts, timeout), log, timeout)
    decreases |acts|
  {
    if acts != [] {
      ApplySound(w, acts[0], log, now, timeout);
      ApplyAllSound(Apply(w, acts[0], timeout), acts[1..], log, now, timeout);
    }
  }

  lemma {:induction false} ApplyAllDue(w: Wheel, acts: seq<Action>, now: int, timeout: TimerId -> nat)
    requires Postponed(acts, now, timeout)
    ensures Due(ApplyAll(w, acts, timeout).entries, now) <= Due(w.entries, now)
    decreases |acts|
  {
    if acts != [] {
      ApplyDue(w, acts[0], now, timeout);
      ApplyAllDue(Apply(w, acts[0], timeout), acts[1..], now, timeout);
    }
  }

  /** A firing leaves fewer entries due, if all that it adds is due later. */
  lemma {:induction false} FireDue(w: Wheel, now: int, acts: seq<Action>, keep: bool, timeout: TimerId -> nat)
    requires w.entries != [] && w.entries[0].due <= now && Postponed(acts, now, timeout)
    requires keep ==> timeout(w.entries[0].timer) >= 1
    ensures Due(Fire(w, now, acts, keep, timeout).entries, now) < Due(w.entries, now)
  {
    var t, w1 := w.entries[0].timer, w.(entries := w.entries[1..]);
    ApplyAllDue(w1, acts, now, timeout);
    InsertDue(ApplyAll(w1, acts, timeout).entries, Entry(now + timeout(t), t), now);
  }

  /** When the callback does nothing else, just a timeout of 0 of a timer that goes on keeps
      the entries due from becoming fewer. */
  lemma {:induction false} FireDueIff(w: Wheel, now: int, keep: bool, timeout: TimerId -> nat)
    requires w.entries != [] && w.entries[0].due <= now
    ensures Due(Fire(w, now, [], keep, timeout).entries, now) < Due(w.entries, now)
            <==> (keep ==> timeout(w.entries[0].timer) >= 1)
  {
    var t := w.entries[0].timer;
    InsertDue(w.entries[1..], Entry(now + timeout(t), t), now);
  }

  /** `n` firings, or as many as there are, whose callbacks just say they go on. */
  function Idle(w: Wheel, now: int, n: nat, timeout: TimerId -> nat): Wheel
    decreases n
  {
    if n == 0 || w.entries == [] || w.entries[0].due > now then w
    else Idle(Fire(w, now, [], true, timeout), now, n - 1, timeout)
  }

  ghost predicate HasDue(s: seq<Entry>, t: TimerId, now: int) {
    exists e :: e in s && e.timer == t && e.due <= now
  }

  lemma {:induction false} DueIff(s: seq<Entry>, now: int)
    requires Sorted(s)
    ensures Due(s, now) > 0 <==> s != [] && s[0].due <= now
  {
    if s != [] && s[0].due > now {
      DueIff(s[1..], now);
    }
  }

  lemma {:induction false} IdleKeeps(w: Wheel, now: int, timeout: TimerId -> nat)
    requires Sorted(w.entries) && w.entries != [] && w.entries[0].due <= now
    ensures var e := Entry(now + timeout(w.entries[0].timer), w.entries[0].timer);
            var w' := Fire(w, now, [], true, timeout);
            Sorted(w'.entries) && forall x :: x in w'.entries <==> x == e || x in w.entries[1..]
  {
    var e := Entry(now + timeout(w.entries[0].timer), w.entries[0].timer);
    InsertMembers(w.entries[1..], e);
    InsertSorted(w.entries[1..], e);
  }

  lemma {:induction false} IdleGoesOn(w: Wheel, now: int, n: nat, timeout: TimerId -> nat, t: TimerId)
    requires Sorted(w.entries) && HasDue(w.entries, t, now) && timeout(t) == 0
    ensures Due(Idle(w, now, n, timeout).entries, now) > 0
    decreases n
  {
    var x :| x in w.entries && x.timer == t && x.due <= now;
    assert w.entries[0].due <= x.due;
    DueIff(w.entries, now);
    if n > 0 {
      IdleKeeps(w, now, timeout);
      var w' := Fire(w, now, [], true, timeout);
      assert HasDue(w'.entries, t, now) by {
        if w.entries[0].timer == t {
          assert Entry(now, t) in w'.entries;
        } else {
          assert x in w'.entries;
        }
      }
      IdleGoesOn(w', now, n - 1, timeout, t);
    }
  }

  lemma {:induction false} IdleEnds(w: Wheel, now: int, n: nat, timeout: TimerId -> nat)
    requires Sorted(w.entries) && n >= Due(w.entries, now)
    requires forall e :: e in w.entries && e.due <= now ==> timeout(e.timer) >= 1
    ensures Due(Idle(w, now, n, timeout).entries, now) == 0
    decreases n
  {
    DueIff(w.entries, now);
    if Due(w.entries, now) > 0 {
      assert w.entries[0] in w.entries;
      FireDueIff(w, now, true, timeout);
      IdleKeeps(w, now, timeout);
      IdleEnds(Fire(w, now, [], true, timeout), now, n - 1, timeout);
    }
  }

  /** A pass whose callbacks all go on would never end exactly when an entry is due whose
      timer has a timeout of 0. */
  lemma {:induction false} NeverEndsIff(w: Wheel, now: int, timeout: TimerId -> nat)
    requires Sorted(w.entries)
    ensures (forall n: nat :: Due(Idle(w, now, n, timeout).entries, now) > 0)
            <==> exists e :: e in w.entries && e.due <= now && timeout(e.timer) == 0
  {
    if e :| e in w.entries && e.due <= now && timeout(e.timer) == 0 {
      forall n: nat
        ensures Due(Idle(w, now, n, timeout).entries, now) > 0
      {
        IdleGoesOn(w, now, n, timeout, e.timer);
      }
    } else {
      IdleEnds(w, now, Due(w.entries, now), timeout);
    }
  }

  /** A timer that says it goes on has not stopped itself. */
  predicate Honest(t: TimerId, acts: seq<Action>, keep: bool) {
    keep ==> Stop(t) !in acts
  }

  ghost predicate HasEntry(s: seq<Entry>, t: TimerId) {
    exists e :: e in s && e.timer == t
  }

  /** A timer counts as running just when it has an entry. */
  ghost predicate InTune(w: Wheel, t: TimerId) {
    t in w.running <==> HasEntry(w.entries, t)
  }

  lemma {:induction false} ApplyTunes(w: Wheel, a: Action, t: TimerId, timeout: TimerId -> nat)
    requires InTune(w, t) || (t in w.running && !HasEntry(w.entries, t))
    ensures var w' := Apply(w, a, timeout);
            if a == Stop(t) || InTune(w, t) then InTune(w', t) else t in w'.running && !HasEntry(w'.entries, t)
  {
    match a {
      case Start(u, at) =>
        var e := Entry(at + timeout(u), u);
        InsertMembers(w.entries, e);
        if u != t && u !in w.running && HasEntry(w.entries, t) {
          var x :| x in w.entries && x.timer == t;
          assert x in Insert(w.entries, e);
        } else if u == t && u !in w.running {
          assert e in Insert(w.entries, e);
        }
      case Stop(u) =>
        WithoutMembers(w.entries, u);
        if u != t && HasEntry(w.entries, t) {
          var x :| x in w.entries && x.timer == t;
          assert x in Without(w.entries, u);
        }
    }
  }

  /** A timer that is being fired runs without an entry until it stops itself; from then on
      it is in tune. */
  lemma {:induction false} ApplyAllTunes(w: Wheel, acts: seq<Action>, t: TimerId, timeout: TimerId -> nat)
    requires InTune(w, t) || (t in w.running && !HasEntry(w.entries, t))
    ensures var w' := ApplyAll(w, acts, timeout);
            if Stop(t) in acts || InTune(w, t) then InTune(w', t) else t in w'.running && !HasEntry(w'.entries, t)
    decreases |acts|
  {
    if acts != [] {
      ApplyTunes(w, acts[0], t, timeout);
      ApplyAllTunes(Apply(w, acts[0], timeout), acts[1..], t, timeout);
    }
  }

  lemma {:induction false} InsertTwin(s: seq<Entry>, e: Entry)
    requires HasEntry(s, e.timer)
    ensures !Unique(Insert(s, e))
  {
    var r := Insert(s, e);
    InsertMembers(s, e);
    var x :| x in s && x.timer == e.timer;
    if s[0].due <= e.due {
      if s[0].timer == e.timer {
        InsertMembers(s[1..], e);
        assert e in Insert(s[1..], e);
        var j :| 0 <= j < |Insert(s[1..], e)| && Insert(s[1..], e)[j] == e;
        assert r[j + 1].timer == r[0].timer;
      } else {
        assert x in s[1..];
        InsertTwin(s[1..], e);
        var i, j :| 0 <= i < j < |Insert(s[1..], e)| && Insert(s[1..], e)[i].timer == Insert(s[1..], e)[j].timer;
        assert r[i + 1].timer == r[j + 1].timer;
      }
    } else {
      var j :| 0 <= j < |s| && s[j] == x;
      assert r[j + 1].timer == r[0].timer;
    }
  }

  /** A fired timer may be filed again exactly when it still runs without an entry. */
  lemma {:induction false} RefilingSoundIff(w: Wheel, e: Entry, log: seq<Firing>, timeout: TimerId -> nat)
    requires Sound(w, log, timeout)
    requires forall f :: f in log && f.timer == e.timer ==> e.due >= f.at + timeout(f.timer)
    requires InTune(w, e.timer) || (e.timer in w.running && !HasEntry(w.entries, e.timer))
    ensures Sound(w.(entries := Insert(w.entries, e)), log, timeout) <==> !InTune(w, e.timer)
  {
    if !InTune(w, e.timer) {
      InsertSound(w, e, log, timeout);
      assert w.running + {e.timer} == w.running;
    } else if e.timer in w.running {
      InsertTwin(w.entries, e);
    } else {
      InsertMembers(w.entries, e);
      assert e in Insert(w.entries, e);
    }
  }

  lemma {:induction false} NoOther(s: seq<Entry>)
    requires s != [] && Unique(s)
    ensures !HasEntry(s[1..], s[0].timer)
  {
    forall e | e in s[1..]
      ensures e.timer != s[0].timer
    {
      NoTwin(s, e);
    }
  }

  /** The timer whose entry has been erased runs and has no other. */
  lemma {:induction false} FiredRunsBare(w: Wheel)
    requires w.entries != [] && Unique(w.entries) && forall e :: e in w.entries ==> e.timer in w.running
    ensures w.entries[0].timer in w.running && !HasEntry(w.entries[1..], w.entries[0].timer)
  {
    assert w.entries[0] in w.entries;
    NoOther(w.entries);
  }

  lemma {:induction false} LogGrows(w: Wheel, log: seq<Firing>, now: int, timeout: TimerId -> nat)
    requires Sound(w, log, timeout) && Past(log, now) && Spaced(log, timeout) && w.entries != [] && w.entries[0].due <= now
    ensures var log' := log + [Firing(w.entries[0].timer, now)];
            && Sound(w.(entries := w.entries[1..]), log', timeout) && Past(log', now) && Spaced(log', timeout)
  {
    var f := Firing(w.entries[0].timer, now);
    var log' := log + [f];
    assert forall x :: x in log' <==> x in log || x == f;
    forall e | e in w.entries[1..]
      ensures e.timer != f.timer
    {
      NoTwin(w.entries, e);
    }
    forall i | 0 <= i < |log| && log[i].timer == f.timer
      ensures f.at >= log[i].at + timeout(f.timer)
    {
      assert w.entries[0] in w.entries && log[i] in log;
    }
  }

  /** A firing keeps the wheel sound exactly when the callback is honest. */
  lemma {:induction false} FireSoundIff(w: Wheel, now: int, acts: seq<Action>, keep: bool, log: seq<Firing>,
                                        timeout: TimerId -> nat)
    requires Sound(w, log, timeout) && Past(log, now) && Spaced(log, timeout)
    requires w.entries != [] && w.entries[0].due <= now && Timely(acts, now)
    ensures var t := w.entries[0].timer;
            var log' := log + [Firing(t, now)];
            && Past(log', now) && Spaced(log', timeout)
            && (Sound(Fire(w, now, acts, keep, timeout), log', timeout) <==> Honest(t, acts, keep))
  {
    var t, w1 := w.entries[0].timer, w.(entries := w.entries[1..]);
    var log' := log + [Firing(t, now)];
    assert w.entries[0] in w.entries;
    LogGrows(w, log, now, timeout);
    FiredRunsBare(w);
    ApplyAllSound(w1, acts, log', now, timeout);
    ApplyAllTunes(w1, acts, t, timeout);
    var w2, e := ApplyAll(w1, acts, timeout), Entry(now + timeout(t), t);
    if keep {
      RefilingSoundIff(w2, e, log', timeout);
    }
  }

  /** A timer whose callback says it does not go on is in tune afterwards exactly when the
      callback stopped it. Otherwise it counts as running, has no entry, and cannot be
      started again. */
  lemma {:induction false} EndedInTuneIff(w: Wheel, now: int, acts: seq<Action>, log: seq<Firing>,
                                          timeout: TimerId -> nat, at: int)
    requires Sound(w, log, timeout) && w.entries != []
    ensures var t, w' := w.entries[0].timer, Fire(w, now, acts, false, timeout);
            && (InTune(w', t) <==> Stop(t) in acts)
            && (Stop(t) !in acts ==> !HasEntry(w'.entries, t) && Apply(w', Start(t, at), timeout) == w')
  {
    FiredRunsBare(w);
    ApplyAllTunes(w.(entries := w.entries[1..]), acts, w.entries[0].timer, timeout);
  }

  // ----- a whole pass

  /** Nothing that callbacks start is due at once, and those that go on have a timeout. */
  ghost predicate Patient(behave: Behaviour, now: int, timeout: TimerId -> nat) {
    forall n, t ::
      var (acts, keep) := behave(n, t);
      Timely(acts, now) && Postponed(acts, now, timeout) && (keep ==> timeout(t) >= 1)
  }

  /** The `n`th firing of a pass. */
  ghost function Turn(w: Wheel, now: int, behave: Behaviour, n: nat, timeout: TimerId -> nat): (w': Wheel)
    requires Patient(behave, now, timeout) && w.entries != [] && w.entries[0].due <= now
    ensures Due(w'.entries, now) < Due(w.entries, now)
  {
    var call := behave(n, w.entries[0].timer);
    FireDue(w, now, call.0, call.1, timeout);
    Fire(w, now, call.0, call.1, timeout)
  }

  /** The wheel after a pass, and the entries fired, the `n`th first. */
  ghost function Pass(w: Wheel, now: int, behave: Behaviour, n: nat, timeout: TimerId -> nat): (Wheel, seq<Entry>)
    requires Patient(behave, now, timeout)
    decreases Due(w.entries, now)
  {
    if w.entries == [] || w.entries[0].due > now then (w, [])
    else
      var rest := Pass(Turn(w, now, behave, n, timeout), now, behave, n + 1, timeout);
      (rest.0, [w.entries[0]] + rest.1)
  }

  ghost predicate AllHonest(behave: Behaviour) {
    forall n, t :: Honest(t, behave(n, t).0, behave(n, t).1)
  }

  function Firings(fired: seq<Entry>, now: int): seq<Firing> {
    if fired == [] then [] else [Firing(fired[0].timer, now)] + Firings(fired[1..], now)
  }

  /** Callbacks add nothing that is due already. */
  lemma {:induction false} ApplyAllOld(w: Wheel, acts: seq<Action>, now: int, timeout: TimerId -> nat, x: Entry)
    requires Postponed(acts, now, timeout) && x.due <= now
    ensures x in ApplyAll(w, acts, timeout).entries ==> x in w.entries
    ensures x in w.entries && Stop(x.timer) !in acts ==> x in ApplyAll(w, acts, timeout).entries
    decreases |acts|
  {
    if acts != [] {
      match acts[0] {
        case Start(t, at) => InsertMembers(w.entries, Entry(at + timeout(t), t));
        case Stop(t) => WithoutMembers(w.entries, t);
      }
      ApplyAllOld(Apply(w, acts[0], timeout), acts[1..], now, timeout, x);
    }
  }

  lemma {:induction false} FireOld(w: Wheel, now: int, acts: seq<Action>, keep: bool, timeout: TimerId -> nat, x: Entry)
    requires w.entries != [] && Postponed(acts, now, timeout) && x.due <= now
    requires keep ==> timeout(w.entries[0].timer) >= 1
    ensures x in Fire(w, now, acts, keep, timeout).entries ==> x in w.entries[1..]
    ensures x in w.entries[1..] && Stop(x.timer) !in acts ==> x in Fire(w, now, acts, keep, timeout).entries
  {
    var t, w1 := w.entries[0].timer, w.(entries := w.entries[1..]);
    ApplyAllOld(w1, acts, now, timeout, x);
    InsertMembers(ApplyAll(w1, acts, timeout).entries, Entry(now + timeout(t), t));
  }

  lemma {:induction false} PassTurn(w: Wheel, now: int, behave: Behaviour, n: nat, timeout: TimerId -> nat,
                                    fired: seq<Entry>)
    requires Patient(behave, now, timeout) && w.entries != [] && w.entries[0].due <= now
    ensures var all := Pass(w, now, behave, n, timeout);
            var rest := Pass(Turn(w, now, behave, n, timeout), now, behave, n + 1, timeout);
            all.0 == rest.0 && fired + all.1 == fired + [w.entries[0]] + rest.1
  {
  }

  lemma {:induction false} TurnSound(w: Wheel, log: seq<Firing>, now: int, behave: Behaviour, n: nat,
                                     timeout: TimerId -> nat)
    requires Patient(behave, now, timeout) && AllHonest(behave)
    requires Sound(w, log, timeout) && Past(log, now) && Spaced(log, timeout)
    requires w.entries != [] && w.entries[0].due <= now
    ensures var w', log' := Turn(w, now, behave, n, timeout), log + [Firing(w.entries[0].timer, now)];
            Sound(w', log', timeout) && Past(log', now) && Spaced(log', timeout)
  {
    var call := behave(n, w.entries[0].timer);
    FireSoundIff(w, now, call.0, call.1, log, timeout);
  }

  /** In order, and if `unique`, with no two entries of one timer due. */
  ghost predicate Tidy(s: seq<Entry>, now: int, unique: bool) {
    Sorted(s) && (unique ==> UniqueDue(s, now))
  }

  lemma {:induction false} InsertTidy(s: seq<Entry>, e: Entry, now: int, unique: bool)
    requires Tidy(s, now, unique) && e.due > now
    ensures Tidy(Insert(s, e), now, unique)
  {
    InsertSorted(s, e);
    if unique {
      InsertUniqueDue(s, e, now);
    }
  }

  lemma {:induction false} WithoutTidy(s: seq<Entry>, t: TimerId, now: int, unique: bool)
    requires Tidy(s, now, unique)
    ensures Tidy(Without(s, t), now, unique)
  {
    WithoutSorted(s, t);
    if unique {
      WithoutUniqueDue(s, t, now);
    }
  }

  lemma {:induction false} ApplyTidy(w: Wheel, a: Action, now: int, timeout: TimerId -> nat, unique: bool)
    requires Tidy(w.entries, now, unique) && (a.Start? ==> a.at + timeout(a.timer) > now)
    ensures Tidy(Apply(w, a, timeout).entries, now, unique)
  {
    match a {
      case Start(t, at) => InsertTidy(w.entries, Entry(at + timeout(t), t), now, unique);
      case Stop(t) => WithoutTidy(w.entries, t, now, unique);
    }
  }

  lemma {:induction false} ApplyAllTidy(w: Wheel, acts: seq<Action>, now: int, timeout: TimerId -> nat, unique: bool)
    requires Tidy(w.entries, now, unique) && Postponed(acts, now, timeout)
    ensures Tidy(ApplyAll(w, acts, timeout).entries, now, unique)
    decreases |acts|
  {
    if acts != [] {
      ApplyTidy(w, acts[0], now, timeout, unique);
      ApplyAllTidy(Apply(w, acts[0], timeout), acts[1..], now, timeout, unique);
    }
  }

  lemma {:induction false} TailTidy(s: seq<Entry>, now: int, unique: bool)
    requires Tidy(s, now, unique) && s != []
    ensures Tidy(s[1..], now, unique)
  {
  }

  lemma {:induction false} TurnTidy(w: Wheel, now: int, behave: Behaviour, n: nat, timeout: TimerId -> nat,
                                    unique: bool)
    requires Patient(behave, now, timeout) && Tidy(w.entries, now, unique) && w.entries != [] && w.entries[0].due <= now
    ensures Tidy(Turn(w, now, behave, n, timeout).entries, now, unique)
  {
    var t, call := w.entries[0].timer, behave(n, w.entries[0].timer);
    var w1 := w.(entries := w.entries[1..]);
    TailTidy(w.entries, now, unique);
    ApplyAllTidy(w1, call.0, now, timeout, unique);
    if call.1 {
      InsertTidy(ApplyAll(w1, call.0, timeout).entries, Entry(now + timeout(t), t), now, unique);
    }
  }

  ghost predicate NeverStops(behave: Behaviour, t: TimerId) {
    forall n, u :: Stop(t) !in behave(n, u).0
  }

  lemma {:induction false} TurnOld(w: Wheel, now: int, behave: Behaviour, n: nat, timeout: TimerId -> nat, x: Entry)
    requires Patient(behave, now, timeout) && w.entries != [] && w.entries[0].due <= now && x.due <= now
    ensures x in Turn(w, now, behave, n, timeout).entries ==> x in w.entries[1..]
    ensures x in w.entries[1..] && NeverStops(behave, x.timer) ==> x in Turn(w, now, behave, n, timeout).entries
  {
    var call := behave(n, w.entries[0].timer);
    FireOld(w, now, call.0, call.1, timeout, x);
  }

  /** Whatever the callbacks do, a pass fires only entries that were there and due at its
      beginning, in the order of their due times. */
  lemma {:induction false} PassFiresDue(w: Wheel, now: int, behave: Behaviour, n: nat, timeout: TimerId -> nat)
    requires Patient(behave, now, timeout) && Sorted(w.entries)
    ensures var fired := Pass(w, now, behave, n, timeout).1;
            (forall x :: x in fired ==> x in w.entries && x.due <= now) && Sorted(fired)
    decreases Due(w.entries, now)
  {
    if w.entries != [] && w.entries[0].due <= now {
      var e := w.entries[0];
      var next := Turn(w, now, behave, n, timeout);
      TurnTidy(w, now, behave, n, timeout, false);
      PassFiresDue(next, now, behave, n + 1, timeout);
      var more := Pass(next, now, behave, n + 1, timeout).1;
      forall x | x in more
        ensures x in w.entries[1..] && e.due <= x.due
      {
        TurnOld(w, now, behave, n, timeout, x);
      }
      forall j | 0 <= j < |more|
        ensures e.due <= more[j].due
      {
        assert more[j] in more;
      }
    }
  }

  /** None of a timer is fired twice, if no timer has two entries due at the beginning. */
  lemma {:induction false} PassFiresOnce(w: Wheel, now: int, behave: Behaviour, n: nat, timeout: TimerId -> nat)
    requires Patient(behave, now, timeout) && Sorted(w.entries) && UniqueDue(w.entries, now)
    ensures Unique(Pass(w, now, behave, n, timeout).1)
    decreases Due(w.entries, now)
  {
    if w.entries != [] && w.entries[0].due <= now {
      var e := w.entries[0];
      var next := Turn(w, now, behave, n, timeout);
      TurnTidy(w, now, behave, n, timeout, true);
      PassFiresDue(next, now, behave, n + 1, timeout);
      PassFiresOnce(next, now, behave, n + 1, timeout);
      var more := Pass(next, now, behave, n + 1, timeout).1;
      forall j | 0 <= j < |more|
        ensures e.timer != more[j].timer
      {
        assert more[j] in more;
        TurnOld(w, now, behave, n, timeout, more[j]);
        NoTwinDue(w.entries, now, more[j]);
      }
    }
  }

  /** It fires every due entry whose timer no callback stops, and whatever remains is due
      later. */
  lemma {:induction false} PassFiresAll(w: Wheel, now: int, behave: Behaviour, n: nat, timeout: TimerId -> nat,
                                        x: Entry)
    requires Patient(behave, now, timeout) && Sorted(w.entries)
    ensures var (w', fired) := Pass(w, now, behave, n, timeout);
            && (x in w.entries && x.due <= now && NeverStops(behave, x.timer) ==> x in fired)
            && (x in w'.entries ==> x.due > now)
    decreases Due(w.entries, now)
  {
    if w.entries != [] && w.entries[0].due <= now {
      TurnTidy(w, now, behave, n, timeout, false);
      PassFiresAll(Turn(w, now, behave, n, timeout), now, behave, n + 1, timeout, x);
      if x.due <= now {
        TurnOld(w, now, behave, n, timeout, x);
      }
    } else if x in w.entries {
      assert w.entries[0].due <= x.due;
    }
  }

  lemma {:induction false} FiringsCons(log: seq<Firing>, e: Entry, more: seq<Entry>, now: int)
    ensures log + Firings([e] + more, now) == log + [Firing(e.timer, now)] + Firings(more, now)
  {
    assert ([e] + more)[1..] == more;
  }

  lemma {:induction false} PassSound(w: Wheel, log: seq<Firing>, now: int, behave: Behaviour, n: nat,
                                     timeout: TimerId -> nat)
    requires Patient(behave, now, timeout) && AllHonest(behave)
    requires Sound(w, log, timeout) && Past(log, now) && Spaced(log, timeout)
    ensures var (w', fired) := Pass(w, now, behave, n, timeout);
            var log' := log + Firings(fired, now);
            Sound(w', log', timeout) && Past(log', now) && Spaced(log', timeout)
    decreases Due(w.entries, now)
  {
    if w.entries != [] && w.entries[0].due <= now {
      var f := Firing(w.entries[0].timer, now);
      var next := Turn(w, now, behave, n, timeout);
      TurnSound(w, log, now, behave, n, timeout);
      PassSound(next, log + [f], now, behave, n + 1, timeout);
      FiringsCons(log, w.entries[0], Pass(next, now, behave, n + 1, timeout).1, now);
    } else {
      assert log + [] == log;
    }
  }

  // ----- whole runs

  /** Between passes timers are started and stopped; a pass happens at one reading of the
      clock. */
  datatype Event = Do(action: Action) | Tick(now: int, behave: Behaviour)

  datatype Run = Run(w: Wheel, log: seq<Firing>, clock: int)

  /** The clock does not go back, and callbacks are honest. */
  ghost predicate Possible(r: Run, e: Event, timeout: TimerId -> nat) {
    match e
    case Do(a) => a.Start? ==> a.at >= r.clock
    case Tick(now, behave) =>
      now >= r.clock && Patient(behave, now, timeout) && AllHonest(behave)
  }

  ghost function Next(r: Run, e: Event, timeout: TimerId -> nat): Run
    requires Possible(r, e, timeout)
  {
    match e
    case Do(a) => Run(Apply(r.w, a, timeout), r.log, if a.Start? then a.at else r.clock)
    case Tick(now, behave) =>
      var (w', fired) := Pass(r.w, now, behave, 0, timeout);
      Run(w', r.log + Firings(fired, now), now)
  }

  ghost predicate Runs(r: Run, es: seq<Event>, timeout: TimerId -> nat)
    decreases |es|
  {
    es != [] ==> Possible(r, es[0], timeout) && Runs(Next(r, es[0], timeout), es[1..], timeout)
  }

  ghost function Exec(r: Run, es: seq<Event>, timeout: TimerId -> nat): Run
    requires Runs(r, es, timeout)
    decreases |es|
  {
    if es == [] then r else Exec(Next(r, es[0], timeout), es[1..], timeout)
  }

  ghost predicate Fine(r: Run, timeout: TimerId -> nat) {
    Sound(r.w, r.log, timeout) && Past(r.log, r.clock) && Spaced(r.log, timeout)
  }

  lemma {:induction false} DoFine(r: Run, a: Action, timeout: TimerId -> nat)
    requires Possible(r, Do(a), timeout) && Fine(r, timeout)
    ensures Fine(Next(r, Do(a), timeout), timeout)
  {
    ApplySound(r.w, a, r.log, r.clock, timeout);
  }

  lemma {:induction false} TickFine(r: Run, now: int, behave: Behaviour, timeout: TimerId -> nat)
    requires Possible(r, Tick(now, behave), timeout) && Fine(r, timeout)
    ensures Fine(Next(r, Tick(now, behave), timeout), timeout)
  {
    PassSound(r.w, r.log, now, behave, 0, timeout);
  }

  lemma {:induction false} NextFine(r: Run, e: Event, timeout: TimerId -> nat)
    requires Possible(r, e, timeout) && Fine(r, timeout)
    ensures Fine(Next(r, e, timeout), timeout)
  {
    match e {
      case Do(a) => DoFine(r, a, timeout);
      case Tick(now, behave) => TickFine(r, now, behave, timeout);
    }
  }

  lemma {:induction false} RunKeeps(r: Run, es: seq<Event>, timeout: TimerId -> nat)
    requires Runs(r, es, timeout) && Fine(r, timeout)
    ensures Fine(Exec(r, es, timeout), timeout)
    decreases |es|
  {
    if es != [] {
      NextFine(r, es[0], timeout);
      RunKeeps(Next(r, es[0], timeout), es[1..], timeout);
    }
  }

  /** Over any run from the beginning, two firings of a timer are at least its timeout apart,
      and no timer ever has two entries. */
  lemma {:induction false} FiringsAreSpaced(clock: int, es: seq<Event>, timeout: TimerId -> nat)
    requires Runs(Run(Wheel([], {}), [], clock), es, timeout)
    ensures var r := Exec(Run(Wheel([], {}), [], clock), es, timeout); Spaced(r.log, timeout) && Unique(r.w.entries)
  {
    RunKeeps(Run(Wheel([], {}), [], clock), es, timeout);
  }

  // ----- on time

  /** The timer runs, and this is when it is due. */
  ghost predicate Filed(w: Wheel, t: TimerId, due: int) {
    t in w.running && Entry(due, t) in w.entries && forall e :: e in w.entries && e.timer == t ==> e.due == due
  }

  lemma {:induction false} ApplyFiled(w: Wheel, a: Action, timeout: TimerId -> nat, t: TimerId, due: int)
    requires Filed(w, t, due) && a != Stop(t)
    ensures Filed(Apply(w, a, timeout), t, due)
  {
    match a {
      case Start(u, at) => InsertMembers(w.entries, Entry(at + timeout(u), u));
      case Stop(u) => WithoutMembers(w.entries, u);
    }
  }

  lemma {:induction false} ApplyAllFiled(w: Wheel, acts: seq<Action>, timeout: TimerId -> nat, t: TimerId, due: int)
    requires Filed(w, t, due) && Stop(t) !in acts
    ensures Filed(ApplyAll(w, acts, timeout), t, due)
    decreases |acts|
  {
    if acts != [] {
      ApplyFiled(w, acts[0], timeout, t, due);
      ApplyAllFiled(Apply(w, acts[0], timeout), acts[1..], timeout, t, due);
    }
  }

  /** The firing of another timer does not matter. */
  lemma {:induction false} OtherFiled(w: Wheel, now: int, acts: seq<Action>, keep: bool, timeout: TimerId -> nat,
                                      t: TimerId, due: int)
    requires Filed(w, t, due) && w.entries[0].timer != t && Stop(t) !in acts
    ensures Filed(Fire(w, now, acts, keep, timeout), t, due)
  {
    var w1 := w.(entries := w.entries[1..]);
    ApplyAllFiled(w1, acts, timeout, t, due);
    InsertMembers(ApplyAll(w1, acts, timeout).entries, Entry(now + timeout(w.entries[0].timer), w.entries[0].timer));
  }

  /** A timer that fires and goes on is due again a timeout from now. */
  lemma {:induction false} Refiled(w: Wheel, now: int, acts: seq<Action>, timeout: TimerId -> nat)
    requires w.entries != [] && Unique(w.entries) && forall e :: e in w.entries ==> e.timer in w.running
    requires Stop(w.entries[0].timer) !in acts
    ensures Filed(Fire(w, now, acts, true, timeout), w.entries[0].timer, now + timeout(w.entries[0].timer))
  {
    var t, w1 := w.entries[0].timer, w.(entries := w.entries[1..]);
    FiredRunsBare(w);
    ApplyAllTunes(w1, acts, t, timeout);
    var w2 := ApplyAll(w1, acts, timeout);
    assert forall e :: e in w2.entries && e.timer == t ==> HasEntry(w2.entries, t);
    InsertMembers(w2.entries, Entry(now + timeout(t), t));
  }

  /** No callback stops the timer, and its own always says that it goes on. */
  ghost predicate GoesOn(behave: Behaviour, t: TimerId) {
    NeverStops(behave, t) && forall n :: behave(n, t).1
  }

  lemma {:induction false} TurnFiled(w: Wheel, log: seq<Firing>, now: int, behave: Behaviour, n: nat,
                                     timeout: TimerId -> nat, t: TimerId, due: int)
    requires Patient(behave, now, timeout) && GoesOn(behave, t)
    requires Sound(w, log, timeout) && Filed(w, t, due) && w.entries[0].due <= now
    ensures Filed(Turn(w, now, behave, n, timeout), t, if w.entries[0].timer == t then now + timeout(t) else due)
  {
    var call := behave(n, w.entries[0].timer);
    if w.entries[0].timer == t {
      Refiled(w, now, call.0, timeout);
    } else {
      OtherFiled(w, now, call.0, call.1, timeout, t, due);
    }
  }

  /** After a pass a timer that goes on is due a timeout from now if it was due, and otherwise
      when it was. */
  lemma {:induction false} PassFiled(w: Wheel, log: seq<Firing>, now: int, behave: Behaviour, n: nat,
                                     timeout: TimerId -> nat, t: TimerId, due: int)
    requires Patient(behave, now, timeout) && AllHonest(behave) && GoesOn(behave, t)
    requires Sound(w, log, timeout) && Past(log, now) && Spaced(log, timeout) && Filed(w, t, due)
    ensures Filed(Pass(w, now, behave, n, timeout).0, t, if due <= now then now + timeout(t) else due)
    decreases Due(w.entries, now)
  {
    if w.entries[0].due <= now {
      var first := w.entries[0];
      assert behave(n, t).1 && first in w.entries;
      TurnSound(w, log, now, behave, n, timeout);
      TurnFiled(w, log, now, behave, n, timeout, t, due);
      PassFiled(Turn(w, now, behave, n, timeout), log + [Firing(first.timer, now)], now, behave, n + 1, timeout, t,
                if first.timer == t then now + timeout(t) else due);
    }
  }

  /** When a timer fired. */
  function TimesOf(log: seq<Firing>, t: TimerId): seq<int> {
    if log == [] then [] else (if log[0].timer == t then [log[0].at] else []) + TimesOf(log[1..], t)
  }

  lemma {:induction false} TimesOfAll(log: seq<Firing>, more: seq<Firing>, t: TimerId)
    ensures TimesOf(log + more, t) == TimesOf(log, t) + TimesOf(more, t)
  {
    if log == [] {
      assert log + more == more;
    } else {
      var all, head := log + more, if log[0].timer == t then [log[0].at] else [];
      TimesOfAll(log[1..], more, t);
      assert all[1..] == log[1..] + more;
      assert head + (TimesOf(log[1..], t) + TimesOf(more, t)) == head + TimesOf(log[1..], t) + TimesOf(more, t);
    }
  }

  lemma {:induction false} TimesOfFired(fired: seq<Entry>, now: int, t: TimerId)
    requires Unique(fired)
    ensures TimesOf(Firings(fired, now), t) == if HasEntry(fired, t) then [now] else []
  {
    if fired != [] {
      var rest := fired[1..];
      TimesOfFired(rest, now, t);
      assert Firings(fired, now)[1..] == Firings(rest, now);
      if fired[0].timer == t {
        assert fired[0] in fired;
        NoOther(fired);
      } else if HasEntry(fired, t) {
        var x :| x in fired && x.timer == t;
        assert x in rest;
      }
    }
  }

  /** A pass fires a timer that is not stopped once if it is due, and otherwise not. */
  lemma {:induction false} PassTimes(w: Wheel, log: seq<Firing>, now: int, behave: Behaviour, timeout: TimerId -> nat,
                                     t: TimerId, due: int)
    requires Patient(behave, now, timeout) && GoesOn(behave, t) && Sound(w, log, timeout) && Filed(w, t, due)
    ensures TimesOf(Firings(Pass(w, now, behave, 0, timeout).1, now), t) == if due <= now then [now] else []
  {
    var fired := Pass(w, now, behave, 0, timeout).1;
    PassFiresDue(w, now, behave, 0, timeout);
    PassFiresOnce(w, now, behave, 0, timeout);
    PassFiresAll(w, now, behave, 0, timeout, Entry(due, t));
    TimesOfFired(fired, now, t);
  }

  /** Neither stops the timer nor lets it end. */
  ghost predicate Leaves(e: Event, t: TimerId) {
    match e
    case Do(a) => a != Stop(t)
    case Tick(_, behave) => GoesOn(behave, t)
  }

  ghost predicate LeftAlone(es: seq<Event>, t: TimerId)
    decreases |es|
  {
    es != [] ==> Leaves(es[0], t) && LeftAlone(es[1..], t)
  }

  /** Of the passes among the events, the times of the first at least a timeout after `since`,
      of the first at least a timeout after that, and so on. */
  function OnTime(since: int, timeout: nat, es: seq<Event>): seq<int>
    decreases |es|
  {
    if es == [] then []
    else if es[0].Tick? && es[0].now >= since + timeout then [es[0].now] + OnTime(es[0].now, timeout, es[1..])
    else OnTime(since, timeout, es[1..])
  }

  lemma {:induction false} TickFiled(r: Run, now: int, behave: Behaviour, timeout: TimerId -> nat, t: TimerId, due: int)
    requires Possible(r, Tick(now, behave), timeout) && Fine(r, timeout) && Filed(r.w, t, due) && GoesOn(behave, t)
    ensures var r' := Next(r, Tick(now, behave), timeout);
            && Filed(r'.w, t, if due <= now then now + timeout(t) else due)
            && TimesOf(r'.log, t) == TimesOf(r.log, t) + if due <= now then [now] else []
  {
    PassFiled(r.w, r.log, now, behave, 0, timeout, t, due);
    PassTimes(r.w, r.log, now, behave, timeout, t, due);
    TimesOfAll(r.log, Firings(Pass(r.w, now, behave, 0, timeout).1, now), t);
  }

  predicate Fires(e: Event, due: int) {
    e.Tick? && e.now >= due
  }

  lemma {:induction false} NextFiled(r: Run, e: Event, timeout: TimerId -> nat, t: TimerId, since: int)
    requires Possible(r, e, timeout) && Fine(r, timeout) && Filed(r.w, t, since + timeout(t)) && Leaves(e, t)
    ensures var r', fires := Next(r, e, timeout), Fires(e, since + timeout(t));
            && Filed(r'.w, t, (if fires then e.now else since) + timeout(t))
            && TimesOf(r'.log, t) == TimesOf(r.log, t) + if fires then [e.now] else []
  {
    match e {
      case Do(a) => ApplyFiled(r.w, a, timeout, t, since + timeout(t));
      case Tick(now, behave) => TickFiled(r, now, behave, timeout, t, since + timeout(t));
    }
  }

  lemma {:induction false} OnTimeNext(times: seq<int>, since: int, timeout: nat, es: seq<Event>)
    requires es != []
    ensures var fires := Fires(es[0], since + timeout);
            times + OnTime(since, timeout, es)
            == (times + if fires then [es[0].now] else []) + OnTime(if fires then es[0].now else since, timeout, es[1..])
  {
  }

  ghost predicate AllFine(r: Run, es: seq<Event>, timeout: TimerId -> nat)
    requires Runs(r, es, timeout)
    decreases |es|
  {
    Fine(r, timeout) && (es != [] ==> AllFine(Next(r, es[0], timeout), es[1..], timeout))
  }

  lemma {:induction false} RunFine(r: Run, es: seq<Event>, timeout: TimerId -> nat)
    requires Runs(r, es, timeout) && Fine(r, timeout)
    ensures AllFine(r, es, timeout)
    decreases |es|
  {
    if es != [] {
      NextFine(r, es[0], timeout);
      RunFine(Next(r, es[0], timeout), es[1..], timeout);
    }
  }

  /** Every pass from here on fires the timer once, or not at all, as its last time tells. */
  ghost predicate InTime(r: Run, es: seq<Event>, timeout: TimerId -> nat, t: TimerId, since: int)
    requires Runs(r, es, timeout)
    decreases |es|
  {
    es != [] ==>
      var r', fires := Next(r, es[0], timeout), Fires(es[0], since + timeout(t));
      && TimesOf(r'.log, t) == TimesOf(r.log, t) + (if fires then [es[0].now] else [])
      && InTime(r', es[1..], timeout, t, if fires then es[0].now else since)
  }

  lemma {:induction false} RunInTime(r: Run, es: seq<Event>, timeout: TimerId -> nat, t: TimerId, since: int)
    requires Runs(r, es, timeout) && LeftAlone(es, t) && AllFine(r, es, timeout) && Filed(r.w, t, since + timeout(t))
    ensures InTime(r, es, timeout, t, since)
    decreases |es|
  {
    if es != [] {
      var next := if Fires(es[0], since + timeout(t)) then es[0].now else since;
      NextFiled(r, es[0], timeout, t, since);
      RunInTime(Next(r, es[0], timeout), es[1..], timeout, t, next);
    }
  }

  lemma {:induction false} ExecTimes(r: Run, es: seq<Event>, timeout: TimerId -> nat, t: TimerId, since: int)
    requires Runs(r, es, timeout) && InTime(r, es, timeout, t, since)
    ensures TimesOf(Exec(r, es, timeout).log, t) == TimesOf(r.log, t) + OnTime(since, timeout(t), es)
    decreases |es|
  {
    if es != [] {
      var next := if Fires(es[0], since + timeout(t)) then es[0].now else since;
      OnTimeNext(TimesOf(r.log, t), since, timeout(t), es);
      ExecTimes(Next(r, es[0], timeout), es[1..], timeout, t, next);
    }
  }

  lemma {:induction false} StartFiled(w: Wheel, t: TimerId, at: int, timeout: TimerId -> nat)
    requires t !in w.running && forall e :: e in w.entries ==> e.timer in w.running
    ensures Filed(Apply(w, Start(t, at), timeout), t, at + timeout(t))
  {
    InsertMembers(w.entries, Entry(at + timeout(t), t));
  }

  /** In any run: a timer that is started, and then not stopped, fires in the first pass at
      least a timeout after the start, then in the first at least a timeout after that one,
      and so on, and never else; whatever else is started and stopped. */
  lemma {:induction false} FiresOnTime(clock: int, before: seq<Event>, at: int, after: seq<Event>,
                                       timeout: TimerId -> nat, t: TimerId)
    requires Runs(Run(Wheel([], {}), [], clock), before, timeout)
    requires var r := Exec(Run(Wheel([], {}), [], clock), before, timeout);
             && t !in r.w.running && at >= r.clock
             && Runs(Next(r, Do(Start(t, at)), timeout), after, timeout) && LeftAlone(after, t)
    ensures var r := Exec(Run(Wheel([], {}), [], clock), before, timeout);
            TimesOf(Exec(Next(r, Do(Start(t, at)), timeout), after, timeout).log, t)
            == TimesOf(r.log, t) + OnTime(at, timeout(t), after)
  {
    var r := Exec(Run(Wheel([], {}), [], clock), before, timeout);
    RunKeeps(Run(Wheel([], {}), [], clock), before, timeout);
    ApplySound(r.w, Start(t, at), r.log, r.clock, timeout);
    StartFiled(r.w, t, at, timeout);
    RunFine(Next(r, Do(Start(t, at)), timeout), after, timeout);
    RunInTime(Next(r, Do(Start(t, at)), timeout), after, timeout, t, at);
    ExecTimes(Next(r, Do(Start(t, at)), timeout), after, timeout, t, at);
  }

  // ----- the class

  lemma {:induction false} InsertStep(s: seq<Entry>, k: nat, e: Entry)
    requires k < |s| && s[k].due <= e.due
    ensures s[..k] + Insert(s[k..], e) == s[..k + 1] + Insert(s[k + 1..], e)
  {
    assert s[k..][1..] == s[k + 1..] && s[..k] + [s[k]] == s[..k + 1];
  }

  class TimerInner {
    const timeout: TimerId -> nat
    var active: bool
    var entries: seq<Entry>
    var running: set<TimerId>

    function View(): Wheel
      reads this
    {
      Wheel(entries, running)
    }

    constructor (timeout: TimerId -> nat)
      ensures this.timeout == timeout && View() == Wheel([], {}) && !active
    {
      this.timeout := timeout;
      active, entries, running := false, [], {};
    }

    method Initialize()
      modifies this`active
      ensures active
    {
      if active {
        return;
      }
      active := true;
    }

    method Deinitialize()
      modifies this`active
      ensures !active
    {
      if !active {
        return;
      }
      active := false;
    }

    method RegisterTimer(t: TimerId, at: int)
      modifies this`entries
      ensures entries == Insert(old(entries), Entry(at + timeout(t), t))
    {
      var e := Entry(at + timeout(t), t);
      var k := 0;
      ghost var was := entries;
      assert was[..0] + Insert(was[0..], e) == Insert(was, e);
      while k < |entries| && entries[k].due <= e.due
        invariant k <= |was| && entries == was && Insert(was, e) == was[..k] + Insert(was[k..], e)
      {
        InsertStep(was, k, e);
        k := k + 1;
      }
      entries := entries[..k] + [e] + entries[k..];
    }

    method UnregisterTimer(t: TimerId)
      modifies this`entries
      ensures entries == Without(old(entries), t)
    {
      var kept: seq<Entry>, rest := [], entries;
      while rest != []
        invariant Without(entries, t) == kept + Without(rest, t)
        decreases |rest|
      {
        if rest[0].timer != t {
          kept := kept + [rest[0]];
        }
        rest := rest[1..];
      }
      entries := kept;
    }

    method StartTimer(t: TimerId, at: int)
      modifies this`entries, this`running
      ensures View() == Apply(old(View()), Start(t, at), timeout)
    {
      if t in running {
        return;
      }
      running := running + {t};
      RegisterTimer(t, at);
    }

    method StopTimer(t: TimerId)
      modifies this`entries, this`running
      ensures View() == Apply(old(View()), Stop(t), timeout)
    {
      if t !in running {
        return;
      }
      running := running - {t};
      UnregisterTimer(t);
    }

    /** A callback, as the actions it takes. */
    method Call(acts: seq<Action>)
      modifies this`entries, this`running
      ensures View() == ApplyAll(old(View()), acts, timeout)
    {
      var rest := acts;
      while rest != []
        invariant ApplyAll(old(View()), acts, timeout) == ApplyAll(View(), rest, timeout)
        decreases |rest|
      {
        match rest[0] {
          case Start(t, at) => StartTimer(t, at);
          case Stop(t) => StopTimer(t);
        }
        rest := rest[1..];
      }
    }

    method FireFirst(now: int, acts: seq<Action>, keep: bool)
      requires entries != []
      modifies this`entries, this`running
      ensures View() == Fire(old(View()), now, acts, keep, timeout)
    {
      var t := entries[0].timer;
      entries := entries[1..];
      Call(acts);
      if keep {
        RegisterTimer(t, now);
      }
    }

    /** The pass; it ends because every firing leaves fewer entries due. */
    method OnTimer(now: int, behave: Behaviour) returns (fired: seq<Entry>)
      requires Patient(behave, now, timeout)
      modifies this`entries, this`running
      ensures !active ==> View() == old(View()) && fired == []
      ensures active ==> (View(), fired) == Pass(old(View()), now, behave, 0, timeout)
    {
      fired := [];
      if !active || entries == [] {
        return;
      }
      ghost var w := View();
      ghost var all := Pass(w, now, behave, 0, timeout);
      assert [] + all.1 == all.1;
      while entries != [] && entries[0].due <= now
        invariant w == View()
        invariant all.0 == Pass(w, now, behave, |fired|, timeout).0
        invariant all.1 == fired + Pass(w, now, behave, |fired|, timeout).1
        decreases Due(w.entries, now)
      {
        var e := entries[0];
        var (acts, keep) := behave(|fired|, e.timer);
        PassTurn(w, now, behave, |fired|, timeout, fired);
        w := Turn(w, now, behave, |fired|, timeout);
        FireFirst(now, acts, keep);
        fired := fired + [e];
      }
      assert fired + [] == fired;
    }
  }
}
