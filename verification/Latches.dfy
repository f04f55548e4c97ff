/** All-or-nothing latches over sets of keys (kv/transaction/latches/latches.go). */
module Latches {
  type Key = seq<int>

  /** What an attempt to latch gives: all latches, or a wait group to wait on. */
  datatype Attempt<W> = Granted | Busy(wg: W)

  function Keys(ks: seq<Key>): set<Key> {
    set k | k in ks
  }

  /** The first of the keys that is latched decides what to wait on. */
  function FirstLatched<W>(m: map<Key, W>, ks: seq<Key>): (r: Attempt<W>)
    ensures r.Granted? <==> Keys(ks) !! m.Keys
    ensures r.Busy? ==> exists i :: 0 <= i < |ks| && ks[i] in m && m[ks[i]] == r.wg && forall j :: 0 <= j < i ==> ks[j] !in m
  {
    if ks == [] then Granted
    else if ks[0] in m then Busy(m[ks[0]])
    else
      assert Keys(ks) == {ks[0]} + Keys(ks[1..]);
      var r := FirstLatched(m, ks[1..]);
      assert forall i :: 0 <= i < |ks| - 1 ==> ks[1..][i] == ks[i + 1];
      r
  }

  /** The latch map after an attempt: unchanged if any key was latched, else with every key under
      the new wait group. */
  function Latched<W>(m: map<Key, W>, ks: seq<Key>, fresh_: W): map<Key, W> {
    if FirstLatched(m, ks).Granted? then m + (map k | k in Keys(ks) :: fresh_) else m
  }

  class WaitGroup {
    var count: int

    constructor ()
      ensures count == 0
    {
      count := 0;
    }

    method Add(n: int)
      modifies this
      ensures count == old(count) + n
    {
      count := count + n;
    }

    /** A counter below zero is a panic. */
    method Done()
      requires count > 0
      modifies this
      ensures count == old(count) - 1
    {
      count := count - 1;
    }
  }

  class LatchTable {
    var latchMap: map<Key, WaitGroup>

    constructor ()
      ensures latchMap == map[]
    {
      latchMap := map[];
    }

    /** Latch all the keys under one new wait group, or none and say what to wait for. */
    method AcquireLatches(keysToLatch: seq<Key>) returns (busy: WaitGroup?, ghost wg: WaitGroup?)
      modifies this
      ensures busy == null <==> FirstLatched(old(latchMap), keysToLatch).Granted?
      ensures busy != null ==> FirstLatched(old(latchMap), keysToLatch).wg == busy && latchMap == old(latchMap)
      ensures busy == null ==> wg != null && fresh(wg) && wg.count == 1 && latchMap == Latched(old(latchMap), keysToLatch, wg)
    {
      wg := null;
      assert keysToLatch[0..] == keysToLatch;
      for i := 0 to |keysToLatch|
        invariant FirstLatched(latchMap, keysToLatch[i..]) == FirstLatched(latchMap, keysToLatch)
        invariant latchMap == old(latchMap)
      {
        var key := keysToLatch[i];
        if key in latchMap {
          return latchMap[key], null;
        }
        assert keysToLatch[i..][1..] == keysToLatch[i + 1..];
      }
      var g := new WaitGroup();
      g.Add(1);
      wg := g;
      LatchAll(keysToLatch, g);
      busy := null;
    }

    method LatchAll(keysToLatch: seq<Key>, wg: WaitGroup)
      modifies this
      ensures latchMap == old(latchMap) + (map k | k in Keys(keysToLatch) :: wg)
    {
      for i := 0 to |keysToLatch|
        invariant latchMap == old(latchMap) + (map k | k in Keys(keysToLatch[..i]) :: wg)
      {
        latchMap := latchMap[keysToLatch[i] := wg];
        assert Keys(keysToLatch[..i + 1]) == Keys(keysToLatch[..i]) + {keysToLatch[i]};
      }
      assert keysToLatch[..|keysToLatch|] == keysToLatch;
    }

    /** Release keys that were latched together: their wait group is completed, once. */
    method ReleaseLatches(keysToUnlatch: seq<Key>)
      requires keysToUnlatch != [] ==> keysToUnlatch[0] in latchMap && latchMap[keysToUnlatch[0]].count > 0
      modifies this, if keysToUnlatch != [] && keysToUnlatch[0] in latchMap then {latchMap[keysToUnlatch[0]]} else {}
      ensures latchMap == old(latchMap) - Keys(keysToUnlatch)
      ensures keysToUnlatch != [] ==> var wg := old(latchMap)[keysToUnlatch[0]]; wg.count == old(wg.count) - 1
    {
      var first := true;
      var i := 0;
      while i < |keysToUnlatch|
        invariant 0 <= i <= |keysToUnlatch| && (first <==> i == 0)
        invariant latchMap == old(latchMap) - Keys(keysToUnlatch[..i])
        invariant keysToUnlatch != [] ==>
                    var wg := old(latchMap)[keysToUnlatch[0]];
                    wg.count == old(wg.count) - if first then 0 else 1
      {
        var key := keysToUnlatch[i];
        if first {
          var wg := latchMap[key];
          wg.Done();
          first := false;
        }
        latchMap := latchMap - {key};
        assert Keys(keysToUnlatch[..i + 1]) == Keys(keysToUnlatch[..i]) + {key};
        i := i + 1;
      }
      assert keysToUnlatch[..i] == keysToUnlatch;
    }
  }

  // ---- all interleavings of commands -------------------------------------------------------

  type Cmd = nat
  type Wg = nat

  /** A command that holds latches: its keys, and the wait group they are under. */
  datatype Hold = Hold(keys: seq<Key>, wg: Wg)

  /** The table with the commands around it: who holds what, who waits on what, how often each
      wait group was completed; wait groups are numbered as they are made. */
  datatype World = World(
    latches: map<Key, Wg>,
    holds: map<Cmd, Hold>,
    waits: map<Cmd, Wg>,
    completed: map<Wg, nat>,
    made: nat)

  datatype Action = Acquire(c: Cmd, keys: seq<Key>) | Release(c: Cmd) | Wake(c: Cmd)

  ghost predicate Init(w: World) {
    w == World(map[], map[], map[], map[], 0)
  }

  ghost predicate Enabled(w: World, a: Action) {
    match a
    case Acquire(c, _) => c !in w.holds && c !in w.waits
    case Release(c) => c in w.holds && forall k :: k in w.holds[c].keys ==> k in w.latches
    case Wake(c) => c in w.waits && w.waits[c] in w.completed && w.completed[w.waits[c]] > 0
  }

  /** One step: latching under the mutex, releasing exactly what was acquired, or returning from
      a wait to try again. */
  ghost function Step(w: World, a: Action): World
    requires Enabled(w, a)
  {
    match a
    case Acquire(c, keys) =>
      (match FirstLatched(w.latches, keys)
       case Granted => w.(latches := Latched(w.latches, keys, w.made), holds := w.holds[c := Hold(keys, w.made)],
                          completed := w.completed[w.made := 0], made := w.made + 1)
       case Busy(wg) => w.(waits := w.waits[c := wg]))
    case Release(c) =>
      var keys := w.holds[c].keys;
      var completed := if keys == [] || w.latches[keys[0]] !in w.completed then w.completed
                       else w.completed[w.latches[keys[0]] := w.completed[w.latches[keys[0]]] + 1];
      w.(latches := w.latches - Keys(keys), holds := w.holds - {c}, completed := completed)
    case Wake(c) => w.(waits := w.waits - {c})
  }

  ghost predicate IsRun(run: seq<World>, acts: seq<Action>) {
    && |run| == |acts| + 1 && Init(run[0])
    && forall i {:trigger acts[i]} :: 0 <= i < |acts| ==> Enabled(run[i], acts[i]) && run[i + 1] == Step(run[i], acts[i])
  }

  /** `c` holds key `k`. */
  predicate Holds(w: World, c: Cmd, k: Key) {
    c in w.holds && k in w.holds[c].keys
  }

  ghost predicate HasHolder(w: World, k: Key) {
    exists c :: Holds(w, c, k)
  }

  /** The latched keys are the held ones, all keys of a command under its own wait group. */
  ghost predicate HeldOk(w: World) {
    && (forall c, k {:trigger Holds(w, c, k)} :: Holds(w, c, k) ==> k in w.latches && w.latches[k] == w.holds[c].wg)
    && (forall k {:trigger k in w.latches} :: k in w.latches ==> HasHolder(w, k))
  }

  /** A holder's wait group is its own and not completed yet. */
  ghost predicate OwnGroups(w: World) {
    && (forall c, d {:trigger c in w.holds, d in w.holds} ::
          c in w.holds && d in w.holds && w.holds[c].wg == w.holds[d].wg ==> c == d)
    && (forall c {:trigger c in w.holds} :: c in w.holds ==> w.holds[c].wg in w.completed && w.completed[w.holds[c].wg] == 0)
  }

  /** The wait groups made so far, none completed twice. */
  ghost predicate CompletedOnce(w: World) {
    && (forall g: Wg {:trigger g in w.completed} :: g in w.completed <==> g < w.made)
    && (forall g: Wg {:trigger g in w.completed} :: g in w.completed ==> w.completed[g] <= 1)
  }

  ghost predicate GroupsOk(w: World) {
    OwnGroups(w) && CompletedOnce(w)
  }

  /** A waiter holds nothing, and waits for a holder or for something completed. */
  ghost predicate WaitersOk(w: World) {
    forall c {:trigger c in w.waits} :: c in w.waits ==>
      && c !in w.holds
      && w.waits[c] in w.completed
      && (w.completed[w.waits[c]] == 1 || HasWaited(w, c))
  }

  ghost predicate Inv(w: World) {
    HeldOk(w) && GroupsOk(w) && WaitersOk(w)
  }

  ghost predicate HasWaited(w: World, c: Cmd)
    requires c in w.waits
  {
    exists d :: Waited(w, c, d)
  }

  /** Command `d` holds latches under the wait group `c` waits on. */
  ghost predicate Waited(w: World, c: Cmd, d: Cmd)
    requires c in w.waits
  {
    d in w.holds && w.holds[d].keys != [] && w.holds[d].wg == w.waits[c]
  }

  /** An attempt, said key by key: with no key latched, all become so under one new wait group and
      are the command's; with `i` the first that is latched, the command waits on the group of that
      key and nothing else changes. */
  lemma AcquireEffect(w: World, c: Cmd, keys: seq<Key>, i: nat)
    requires Enabled(w, Acquire(c, keys)) && i <= |keys|
    requires (forall j :: 0 <= j < i ==> keys[j] !in w.latches) && (i < |keys| ==> keys[i] in w.latches)
    ensures var w' := Step(w, Acquire(c, keys));
            if i < |keys| then w' == w.(waits := w.waits[c := w.latches[keys[i]]])
            else
              && (forall k :: k in w'.latches <==> k in w.latches || k in keys)
              && (forall k :: k in w'.latches ==> w'.latches[k] == if k in keys then w.made else w.latches[k])
              && w'.holds == w.holds[c := Hold(keys, w.made)] && w'.waits == w.waits
              && w'.made == w.made + 1 && w'.completed == w.completed[w.made := 0]
  {
    if i < |keys| {
      FirstLatchedAt(w.latches, keys, i);
    } else {
      assert Keys(keys) !! w.latches.Keys;
    }
  }

  lemma FirstLatchedAt<W>(m: map<Key, W>, keys: seq<Key>, i: nat)
    requires i < |keys| && keys[i] in m && forall j :: 0 <= j < i ==> keys[j] !in m
    ensures FirstLatched(m, keys) == Busy(m[keys[i]])
  {
    assert keys[i] in Keys(keys) && keys[i] in m.Keys;
  }

  /** A step that leaves latches and holds alone keeps their invariant. */
  lemma SameHeld(w: World, w': World)
    requires HeldOk(w) && w'.latches == w.latches && w'.holds == w.holds
    ensures HeldOk(w')
  {
    forall c, k | Holds(w', c, k) ensures k in w'.latches && w'.latches[k] == w'.holds[c].wg {
      assert Holds(w, c, k);
    }
    forall k | k in w'.latches ensures HasHolder(w', k) {
      assert HasHolder(w, k);
      var c :| Holds(w, c, k);
      assert Holds(w', c, k);
    }
  }

  /** A waiter keeps waiting for a holder that is still there. */
  lemma StillWaited(w: World, w': World, c: Cmd)
    requires c in w.waits && c in w'.waits && w.waits[c] == w'.waits[c] && HasWaited(w, c)
    requires forall d :: Waited(w, c, d) ==> d in w'.holds && w'.holds[d] == w.holds[d]
    ensures HasWaited(w', c)
  {
    var d :| Waited(w, c, d);
    assert Waited(w', c, d);
  }

  lemma BusyInv(w: World, c: Cmd, keys: seq<Key>)
    requires Inv(w) && Enabled(w, Acquire(c, keys)) && FirstLatched(w.latches, keys).Busy?
    ensures Inv(Step(w, Acquire(c, keys)))
  {
    var w' := Step(w, Acquire(c, keys));
    var wg := FirstLatched(w.latches, keys).wg;
    SameHeld(w, w');
    assert GroupsOk(w');
    var k :| k in keys && k in w.latches && w.latches[k] == wg;
    assert HasHolder(w, k);
    var d :| Holds(w, d, k);
    assert Waited(w', c, d);
    forall e | e in w'.waits && e != c ensures w'.completed[w'.waits[e]] == 1 || HasWaited(w', e) {
      if HasWaited(w, e) {
        StillWaited(w, w', e);
      }
    }
  }

  lemma GrantHeld(w: World, c: Cmd, keys: seq<Key>)
    requires HeldOk(w) && Enabled(w, Acquire(c, keys)) && FirstLatched(w.latches, keys).Granted?
    ensures HeldOk(Step(w, Acquire(c, keys)))
  {
    var w' := Step(w, Acquire(c, keys));
    forall e, q | Holds(w', e, q) ensures q in w'.latches && w'.latches[q] == w'.holds[e].wg {
      if e != c {
        assert Holds(w, e, q);
      } else {
        assert q in Keys(keys);
      }
    }
    forall q | q in w'.latches ensures HasHolder(w', q) {
      if q in Keys(keys) {
        assert Holds(w', c, q);
      } else {
        assert HasHolder(w, q);
        var e :| Holds(w, e, q);
        assert Holds(w', e, q);
      }
    }
  }

  lemma GrantGroups(w: World, c: Cmd, keys: seq<Key>)
    requires GroupsOk(w) && Enabled(w, Acquire(c, keys)) && FirstLatched(w.latches, keys).Granted?
    ensures GroupsOk(Step(w, Acquire(c, keys)))
  {
  }

  lemma GrantInv(w: World, c: Cmd, keys: seq<Key>)
    requires Inv(w) && Enabled(w, Acquire(c, keys)) && FirstLatched(w.latches, keys).Granted?
    ensures Inv(Step(w, Acquire(c, keys)))
  {
    var w' := Step(w, Acquire(c, keys));
    GrantHeld(w, c, keys);
    GrantGroups(w, c, keys);
    forall e | e in w'.waits ensures w'.completed[w'.waits[e]] == 1 || HasWaited(w', e) {
      if HasWaited(w, e) {
        StillWaited(w, w', e);
      }
    }
  }

  lemma ReleaseHeld(w: World, c: Cmd)
    requires HeldOk(w) && GroupsOk(w) && Enabled(w, Release(c))
    ensures HeldOk(Step(w, Release(c)))
  {
    var w' := Step(w, Release(c));
    forall e, q | Holds(w', e, q) ensures q in w'.latches && w'.latches[q] == w'.holds[e].wg {
      assert Holds(w, e, q);
      assert q in w.holds[c].keys ==> Holds(w, c, q);
    }
    forall q | q in w'.latches ensures HasHolder(w', q) {
      assert HasHolder(w, q);
      var e :| Holds(w, e, q);
      assert Holds(w', e, q);
    }
  }

  /** Releasing completes the holder's own wait group. */
  lemma ReleaseCompletes(w: World, c: Cmd)
    requires Inv(w) && Enabled(w, Release(c))
    ensures Step(w, Release(c)).completed
            == if w.holds[c].keys == [] then w.completed else w.completed[w.holds[c].wg := 1]
  {
    if w.holds[c].keys != [] {
      assert Holds(w, c, w.holds[c].keys[0]);
    }
  }

  lemma ReleaseInv(w: World, c: Cmd)
    requires Inv(w) && Enabled(w, Release(c))
    ensures Inv(Step(w, Release(c)))
  {
    var w' := Step(w, Release(c));
    ReleaseHeld(w, c);
    ReleaseCompletes(w, c);
    assert GroupsOk(w');
    forall e | e in w'.waits ensures w'.completed[w'.waits[e]] == 1 || HasWaited(w', e) {
      if HasWaited(w, e) && !Waited(w, e, c) {
        StillWaited(w, w', e);
      }
    }
  }

  lemma WakeInv(w: World, c: Cmd)
    requires Inv(w) && Enabled(w, Wake(c))
    ensures Inv(Step(w, Wake(c)))
  {
    var w' := Step(w, Wake(c));
    SameHeld(w, w');
    assert GroupsOk(w');
    forall e | e in w'.waits ensures w'.completed[w'.waits[e]] == 1 || HasWaited(w', e) {
      if HasWaited(w, e) {
        StillWaited(w, w', e);
      }
    }
  }

  lemma StepInv(w: World, a: Action)
    requires Inv(w) && Enabled(w, a)
    ensures Inv(Step(w, a))
  {
    match a
    case Acquire(c, keys) =>
      if FirstLatched(w.latches, keys).Granted? {
        GrantInv(w, c, keys);
      } else {
        BusyInv(w, c, keys);
      }
    case Release(c) => ReleaseInv(w, c);
    case Wake(c) => WakeInv(w, c);
  }

  lemma {:induction false} RunInv(run: seq<World>, acts: seq<Action>, i: nat)
    requires IsRun(run, acts) && i < |run|
    ensures Inv(run[i])
  {
    if i > 0 {
      RunInv(run, acts, i - 1);
      assert run[i] == Step(run[i - 1], acts[i - 1]);
      StepInv(run[i - 1], acts[i - 1]);
    }
  }

  /** Exclusion, in every state of every interleaving: no two commands hold the same key, the
      latched keys are exactly the held ones, and all keys of a command are under one wait group
      of its own. */
  lemma Exclusion(run: seq<World>, acts: seq<Action>, i: nat, c: Cmd, d: Cmd, k: Key)
    requires IsRun(run, acts) && i < |run|
    ensures Holds(run[i], c, k) && Holds(run[i], d, k) ==> c == d
    ensures k in run[i].latches <==> HasHolder(run[i], k)
    ensures Holds(run[i], c, k) ==> k in run[i].latches && run[i].latches[k] == run[i].holds[c].wg
  {
    RunInv(run, acts, i);
    var w := run[i];
    if Holds(w, c, k) && Holds(w, d, k) {
      assert w.holds[c].wg == w.holds[d].wg;
    }
  }

  /** A release is always possible: a holder's keys are latched, under a wait group not completed
      yet, so completing it does not panic; and it is completed exactly once. */
  lemma ReleaseCompletesOnce(run: seq<World>, acts: seq<Action>, i: nat, c: Cmd)
    requires IsRun(run, acts) && i < |run| && c in run[i].holds
    ensures Enabled(run[i], Release(c))
    ensures var w, h := run[i], run[i].holds[c];
            && h.wg in w.completed && w.completed[h.wg] == 0
            && Step(w, Release(c)).completed == if h.keys == [] then w.completed else w.completed[h.wg := 1]
  {
    RunInv(run, acts, i);
    var w, h := run[i], run[i].holds[c];
    forall k | k in h.keys ensures k in w.latches {
      assert Holds(w, c, k);
    }
    ReleaseCompletes(w, c);
  }

  /** A waiter holds nothing of the attempt that failed, and is never forgotten: the wait group it
      waits on has been completed, or a command still holding latches will complete it. */
  lemma NoLostWaiter(run: seq<World>, acts: seq<Action>, i: nat, c: Cmd)
    requires IsRun(run, acts) && i < |run| && c in run[i].waits
    ensures c !in run[i].holds
    ensures Enabled(run[i], Wake(c)) || HasWaited(run[i], c)
  {
    RunInv(run, acts, i);
  }
}
