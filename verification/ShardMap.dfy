/** The replicated shard map: last writer wins by Lamport version, and when that converges. */
module ShardMap {
  import opened Wrappers
  import opened Sorting

  type Key = (string, nat, nat)

  datatype Entry = Entry(modelId: string, layerStart: nat, layerEnd: nat, peerId: string, version: nat)

  datatype Replica = Replica(entries: map<Key, Entry>, clock: nat)

  const FRESH: Replica := Replica(map[], 0)

  function Max(a: nat, b: nat): nat {
    if a < b then b else a
  }

  // --- The operations ---

  function Assigned(m: Replica, key: Key, peer: string): Replica {
    Replica(m.entries[key := Entry(key.0, key.1, key.2, peer, m.clock + 1)], m.clock + 1)
  }

  function Without(m: Replica, peer: string): Replica {
    m.(entries := map k | k in m.entries && m.entries[k].peerId != peer :: m.entries[k])
  }

  /** The remote entry replaces a missing or an older local one. */
  predicate Dominated(local: map<Key, Entry>, k: Key, remote: Entry) {
    k in local ==> local[k].version < remote.version
  }

  function Winner(a: Replica, b: Replica, k: Key): Entry
    requires k in a.entries || k in b.entries
  {
    if k in b.entries && Dominated(a.entries, k, b.entries[k]) then b.entries[k] else a.entries[k]
  }

  function Merged(a: Replica, b: Replica): Replica {
    Replica(map k | k in a.entries.Keys + b.entries.Keys :: Winner(a, b, k), Max(a.clock, b.clock))
  }

  // --- The laws of merging ---

  lemma SameReplica(a: Replica, b: Replica)
    requires a.clock == b.clock && a.entries.Keys == b.entries.Keys
    requires forall k | k in a.entries :: a.entries[k] == b.entries[k]
    ensures a == b
  {
    assert a.entries == b.entries;
  }

  lemma MergeAssociative(a: Replica, b: Replica, c: Replica)
    ensures Merged(Merged(a, b), c) == Merged(a, Merged(b, c))
  {
    SameReplica(Merged(Merged(a, b), c), Merged(a, Merged(b, c)));
  }

  lemma MergeIdempotent(a: Replica, b: Replica)
    ensures Merged(a, a) == a && Merged(Merged(a, b), b) == Merged(a, b)
  {
    SameReplica(Merged(a, a), a);
    SameReplica(Merged(Merged(a, b), b), Merged(a, b));
  }

  predicate Agree(a: Replica, b: Replica, k: Key) {
    k in a.entries && k in b.entries && a.entries[k].version == b.entries[k].version ==> a.entries[k] == b.entries[k]
  }

  /** No two entries of the same key and version differ. */
  ghost predicate Compatible(a: Replica, b: Replica) {
    forall k: Key :: Agree(a, b, k)
  }

  /** The order of two maps does not matter exactly when they are compatible. */
  lemma MergeCommutesIff(a: Replica, b: Replica)
    ensures Merged(a, b) == Merged(b, a) <==> Compatible(a, b)
  {
    if Compatible(a, b) {
      forall k | k in Merged(a, b).entries ensures Merged(a, b).entries[k] == Merged(b, a).entries[k] {
        assert Agree(a, b, k);
      }
      SameReplica(Merged(a, b), Merged(b, a));
    }
    if Merged(a, b) == Merged(b, a) {
      forall k: Key ensures Agree(a, b, k) {
        if k in a.entries && k in b.entries {
          assert Merged(a, b).entries[k] == Merged(b, a).entries[k];
        }
      }
    }
  }

  // --- Merging many ---

  function MergeAll(a: Replica, others: seq<Replica>): Replica {
    if others == [] then a else Merged(MergeAll(a, others[..|others| - 1]), others[|others| - 1])
  }

  predicate Below(x: Replica, r: Replica, k: Key) {
    k in x.entries ==> k in r.entries && x.entries[k].version <= r.entries[k].version
  }

  predicate Holds(x: Replica, k: Key, e: Entry) {
    k in x.entries && x.entries[k] == e
  }

  /** `r` is the newest of all: above everything in `all`, and holding nothing that is not in it. */
  ghost predicate IsNewest(all: set<Replica>, r: Replica) {
    && (forall x, k: Key | x in all :: Below(x, r, k))
    && (forall k | k in r.entries :: exists x :: x in all && Holds(x, k, r.entries[k]))
    && (forall x | x in all :: x.clock <= r.clock)
    && (exists x :: x in all && x.clock == r.clock)
  }

  lemma MergedIsNewest(all: set<Replica>, r: Replica, b: Replica)
    requires IsNewest(all, r)
    ensures IsNewest(all + {b}, Merged(r, b))
  {
    var m := Merged(r, b);
    forall x, k: Key | x in all + {b} ensures Below(x, m, k) {
      if x in all { assert Below(x, r, k); }
    }
    forall k | k in m.entries ensures exists x :: x in all + {b} && Holds(x, k, m.entries[k]) {
      if m.entries[k] == Winner(r, b, k) && Holds(b, k, m.entries[k]) {
        assert b in all + {b};
      } else {
        var x :| x in all && Holds(x, k, r.entries[k]);
        assert x in all + {b};
      }
    }
    var x :| x in all && x.clock == r.clock;
    assert x in all + {b} && b in all + {b};
  }

  ghost function Everyone(a: Replica, others: seq<Replica>): set<Replica> {
    {a} + set x | x in others
  }

  lemma {:induction false} MergeAllIsNewest(a: Replica, others: seq<Replica>)
    ensures IsNewest(Everyone(a, others), MergeAll(a, others))
    decreases |others|
  {
    if others == [] {
      assert Everyone(a, others) == {a};
      assert a in {a} && forall k | k in a.entries :: Holds(a, k, a.entries[k]);
    } else {
      var n := |others| - 1;
      MergeAllIsNewest(a, others[..n]);
      MergedIsNewest(Everyone(a, others[..n]), MergeAll(a, others[..n]), others[n]);
      assert others == others[..n] + [others[n]];
      assert Everyone(a, others) == Everyone(a, others[..n]) + {others[n]};
    }
  }

  ghost predicate AllCompatible(all: set<Replica>) {
    forall x, y | x in all && y in all :: Compatible(x, y)
  }

  lemma NewestKeys(all: set<Replica>, r: Replica, s: Replica)
    requires IsNewest(all, r) && IsNewest(all, s)
    ensures r.entries.Keys <= s.entries.Keys
  {
    forall k | k in r.entries ensures k in s.entries {
      var x :| x in all && Holds(x, k, r.entries[k]);
      assert Below(x, s, k);
    }
  }

  /** Compatible or not: the versions never depend on the order. */
  lemma NewestVersions(all: set<Replica>, r: Replica, s: Replica, k: Key)
    requires IsNewest(all, r) && IsNewest(all, s) && k in r.entries
    ensures k in s.entries && r.entries[k].version == s.entries[k].version
  {
    var u :| u in all && Holds(u, k, r.entries[k]);
    assert Below(u, s, k);
    var v :| v in all && Holds(v, k, s.entries[k]);
    assert Below(v, r, k);
  }

  lemma NewestUnique(all: set<Replica>, r: Replica, s: Replica)
    requires IsNewest(all, r) && IsNewest(all, s) && AllCompatible(all)
    ensures r == s
  {
    var x :| x in all && x.clock == r.clock;
    var y :| y in all && y.clock == s.clock;
    assert r.clock == s.clock;
    NewestKeys(all, r, s);
    NewestKeys(all, s, r);
    forall k | k in r.entries ensures r.entries[k] == s.entries[k] {
      NewestVersions(all, r, s, k);
      var u :| u in all && Holds(u, k, r.entries[k]);
      var v :| v in all && Holds(v, k, s.entries[k]);
      assert Compatible(u, v) && Agree(u, v, k);
    }
    SameReplica(r, s);
  }

  /** Merging the same compatible maps in any order, with any repetition, gives the same map. */
  lemma Convergence(a: Replica, xs: seq<Replica>, b: Replica, ys: seq<Replica>)
    requires Everyone(a, xs) == Everyone(b, ys) && AllCompatible(Everyone(a, xs))
    ensures MergeAll(a, xs) == MergeAll(b, ys)
  {
    MergeAllIsNewest(a, xs);
    MergeAllIsNewest(b, ys);
    NewestUnique(Everyone(a, xs), MergeAll(a, xs), MergeAll(b, ys));
  }

  // --- Runs of a swarm ---

  /** The replicas, and the snapshots that have been published and may still arrive anywhere, in any order. */
  datatype Swarm = Swarm(replicas: seq<Replica>, published: seq<Replica>)

  datatype Op =
    | Assign(i: nat, key: Key, peer: string)
    | RemovePeer(i: nat, peer: string)
    | Publish(i: nat)
    | Receive(i: nat, snapshot: nat)

  function Step(s: Swarm, op: Op): Swarm {
    if op.i >= |s.replicas| then s
    else
      var m := s.replicas[op.i];
      match op
      case Assign(i, key, peer) => s.(replicas := s.replicas[i := Assigned(m, key, peer)])
      case RemovePeer(i, peer) => s.(replicas := s.replicas[i := Without(m, peer)])
      case Publish(i) => s.(published := s.published + [m])
      case Receive(i, snapshot) =>
        if snapshot < |s.published| then s.(replicas := s.replicas[i := Merged(m, s.published[snapshot])]) else s
  }

  function Run(s: Swarm, ops: seq<Op>): Swarm
    decreases |ops|
  {
    if ops == [] then s else Run(Step(s, ops[0]), ops[1..])
  }

  function Start(n: nat): Swarm {
    Swarm(seq(n, _ => FRESH), [])
  }

  /** All maps there are: those of the replicas and those under way. */
  function Maps(s: Swarm): seq<Replica> {
    s.replicas + s.published
  }

  predicate KeyFits(k: Key, e: Entry) {
    k == (e.modelId, e.layerStart, e.layerEnd)
  }

  /** The clock is at least every version, and every entry lies under its own key. */
  predicate InOrder(m: Replica) {
    forall k | k in m.entries :: m.entries[k].version <= m.clock && KeyFits(k, m.entries[k])
  }

  predicate AllInOrder(s: Swarm) {
    forall i | 0 <= i < |Maps(s)| :: InOrder(Maps(s)[i])
  }

  lemma OpsKeepOrder(m: Replica, b: Replica, key: Key, peer: string)
    requires InOrder(m) && InOrder(b)
    ensures InOrder(Assigned(m, key, peer)) && InOrder(Without(m, peer)) && InOrder(Merged(m, b))
  {
  }

  /** What a step makes of the maps: the other maps stay, and the new one comes from the step's operation. */
  lemma StepMaps(s: Swarm, op: Op, x: Replica)
    requires x in Maps(Step(s, op)) && x !in Maps(s)
    ensures op.i < |s.replicas| && s.replicas[op.i] in Maps(s)
    ensures match op
            case Assign(i, key, peer) => x == Assigned(s.replicas[i], key, peer)
            case RemovePeer(i, peer) => x == Without(s.replicas[i], peer)
            case Publish(_) => false
            case Receive(i, j) => j < |s.published| && s.published[j] in Maps(s) && x == Merged(s.replicas[i], s.published[j])
  {
    var t := Step(s, op);
    var p :| 0 <= p < |Maps(t)| && Maps(t)[p] == x;
    assert forall q | 0 <= q < |Maps(s)| :: Maps(s)[q] in Maps(s) && Maps(s)[q] != x;
    if op.i < |s.replicas| {
      assert Maps(s)[op.i] == s.replicas[op.i];
      if op.Receive? && op.snapshot < |s.published| {
        assert Maps(s)[|s.replicas| + op.snapshot] == s.published[op.snapshot];
      }
    }
  }

  lemma StepKeepsOrder(s: Swarm, op: Op)
    requires AllInOrder(s)
    ensures AllInOrder(Step(s, op))
  {
    var t := Step(s, op);
    forall p | 0 <= p < |Maps(t)| ensures InOrder(Maps(t)[p]) {
      var x := Maps(t)[p];
      assert x in Maps(t);
      if x !in Maps(s) {
        StepMaps(s, op, x);
        match op
        case Assign(i, key, peer) => OpsKeepOrder(s.replicas[i], FRESH, key, peer);
        case RemovePeer(i, peer) => OpsKeepOrder(s.replicas[i], FRESH, ("", 0, 0), peer);
        case Publish(_) =>
        case Receive(i, j) => OpsKeepOrder(s.replicas[i], s.published[j], ("", 0, 0), "");
      }
    }
  }

  /** In every reachable state every clock is at least every version of its map. */
  lemma {:induction false} RunsKeepOrder(s: Swarm, ops: seq<Op>)
    requires AllInOrder(s)
    ensures AllInOrder(Run(s, ops))
    decreases |ops|
  {
    if ops != [] {
      StepKeepsOrder(s, ops[0]);
      RunsKeepOrder(Step(s, ops[0]), ops[1..]);
    }
  }

  lemma StartInOrder(n: nat)
    ensures AllInOrder(Start(n))
  {
  }

  /** So it is in every swarm that started empty. */
  lemma SwarmsInOrder(n: nat, ops: seq<Op>)
    ensures AllInOrder(Run(Start(n), ops))
  {
    StartInOrder(n);
    RunsKeepOrder(Start(n), ops);
  }

  /** Hence an assignment dominates: no map with a clock up to the local one can take its place. */
  lemma AssignmentDominates(m: Replica, b: Replica, key: Key, peer: string)
    requires InOrder(m) && InOrder(b)
    ensures forall k | k in m.entries :: m.entries[k].version < Assigned(m, key, peer).entries[key].version
    ensures b.clock <= m.clock ==>
      && Merged(Assigned(m, key, peer), b).entries[key] == Assigned(m, key, peer).entries[key]
      && Merged(b, Assigned(m, key, peer)).entries[key] == Assigned(m, key, peer).entries[key]
  {
  }

  predicate ClocksUpTo(s: Swarm, clock: nat) {
    forall x | x in Maps(s) :: x.clock <= clock
  }

  function Assignments(ops: seq<Op>, replicas: nat): nat {
    if ops == [] then 0 else (if ops[0].Assign? && ops[0].i < replicas then 1 else 0) + Assignments(ops[1..], replicas)
  }

  function AssignmentsBy(ops: seq<Op>, i: nat): nat {
    if ops == [] then 0 else (if ops[0].Assign? && ops[0].i == i then 1 else 0) + AssignmentsBy(ops[1..], i)
  }

  lemma ClockStep(s: Swarm, op: Op, clock: nat)
    requires ClocksUpTo(s, clock)
    ensures |Step(s, op).replicas| == |s.replicas|
    ensures ClocksUpTo(Step(s, op), clock + if op.Assign? && op.i < |s.replicas| then 1 else 0)
  {
    forall x | x in Maps(Step(s, op)) ensures x.clock <= clock + if op.Assign? && op.i < |s.replicas| then 1 else 0 {
      if x !in Maps(s) { StepMaps(s, op, x); }
    }
  }

  lemma {:induction false} ClocksWithinAssignments(s: Swarm, ops: seq<Op>, clock: nat)
    requires ClocksUpTo(s, clock)
    ensures |Run(s, ops).replicas| == |s.replicas|
    ensures ClocksUpTo(Run(s, ops), clock + Assignments(ops, |s.replicas|))
    decreases |ops|
  {
    if ops != [] {
      ClockStep(s, ops[0], clock);
      ClocksWithinAssignments(Step(s, ops[0]), ops[1..], clock + if ops[0].Assign? && ops[0].i < |s.replicas| then 1 else 0);
    }
  }

  lemma {:induction false} ClockCountsOwn(s: Swarm, ops: seq<Op>, i: nat)
    requires i < |s.replicas|
    ensures i < |Run(s, ops).replicas| && Run(s, ops).replicas[i].clock >= s.replicas[i].clock + AssignmentsBy(ops, i)
    decreases |ops|
  {
    if ops != [] {
      ClockCountsOwn(Step(s, ops[0]), ops[1..], i);
    }
  }

  /** In every swarm that started empty a clock counts at least the assignments its own replica made, and at most those that all of
      them made. */
  lemma ClocksCountAssignments(n: nat, ops: seq<Op>, i: nat)
    requires i < n
    ensures |Run(Start(n), ops).replicas| == n
    ensures AssignmentsBy(ops, i) <= Run(Start(n), ops).replicas[i].clock <= Assignments(ops, n)
  {
    ClocksWithinAssignments(Start(n), ops, 0);
    ClockCountsOwn(Start(n), ops, i);
    assert Run(Start(n), ops).replicas[i] in Maps(Run(Start(n), ops));
  }

  /** The first assignment of an empty replica. */
  lemma FirstAssignment(modelId: string, from: nat, to: nat, peer: string)
    ensures Assigned(FRESH, (modelId, from, to), peer) == Replica(map[(modelId, from, to) := Entry(modelId, from, to, peer, 1)], 1)
  {
  }

  // --- One writer a key: every run converges ---

  /** Every assignment of a key is made by its writer. */
  predicate ByWriter(op: Op, writer: Key -> nat) {
    op.Assign? ==> writer(op.key) == op.i
  }

  ghost predicate WithinWriter(s: Swarm, x: Replica, writer: Key -> nat) {
    forall k | k in x.entries :: writer(k) < |s.replicas| && x.entries[k].version <= s.replicas[writer(k)].clock
  }

  /** All maps agree, and no version of a key runs ahead of its writer's clock. */
  ghost predicate Coherent(s: Swarm, writer: Key -> nat) {
    && (forall x | x in Maps(s) :: WithinWriter(s, x, writer))
    && (forall x, y | x in Maps(s) && y in Maps(s) :: Compatible(x, y))
  }

  lemma ClocksGrow(s: Swarm, op: Op)
    ensures |Step(s, op).replicas| == |s.replicas|
    ensures forall i | 0 <= i < |s.replicas| :: s.replicas[i].clock <= Step(s, op).replicas[i].clock
  {
  }

  /** The new map of a step by the writers stays within the writers' clocks and agrees with all old ones. */
  lemma NewMapCoherent(s: Swarm, op: Op, writer: Key -> nat, x: Replica, y: Replica)
    requires Coherent(s, writer) && ByWriter(op, writer)
    requires x in Maps(Step(s, op)) && x !in Maps(s) && y in Maps(s)
    ensures WithinWriter(Step(s, op), x, writer) && Compatible(x, y)
  {
    StepMaps(s, op, x);
    ClocksGrow(s, op);
    var m := s.replicas[op.i];
    assert WithinWriter(s, m, writer) && WithinWriter(s, y, writer) && Compatible(m, y);
    match op
    case Assign(i, key, peer) =>
      forall k: Key ensures Agree(x, y, k) {
        assert Agree(m, y, k);
      }
    case RemovePeer(i, peer) =>
      forall k: Key ensures Agree(x, y, k) {
        assert Agree(m, y, k);
      }
    case Publish(_) =>
    case Receive(i, j) =>
      var b := s.published[j];
      assert WithinWriter(s, b, writer) && Compatible(b, y);
      forall k: Key ensures Agree(x, y, k) {
        assert Agree(m, y, k) && Agree(b, y, k);
      }
  }

  lemma OneNewMap(s: Swarm, op: Op, x: Replica, y: Replica)
    requires x in Maps(Step(s, op)) && x !in Maps(s) && y in Maps(Step(s, op)) && y !in Maps(s)
    ensures x == y
  {
    StepMaps(s, op, x);
    StepMaps(s, op, y);
  }

  lemma CompatibleSymmetric(a: Replica, b: Replica)
    requires Compatible(a, b)
    ensures Compatible(b, a) && Compatible(a, a)
  {
    forall k: Key ensures Agree(b, a, k) {
      assert Agree(a, b, k);
    }
  }

  lemma StepKeepsCoherent(s: Swarm, op: Op, writer: Key -> nat)
    requires Coherent(s, writer) && ByWriter(op, writer)
    ensures Coherent(Step(s, op), writer)
  {
    var t := Step(s, op);
    ClocksGrow(s, op);
    forall x | x in Maps(t) ensures WithinWriter(t, x, writer) {
      if x in Maps(s) {
        assert WithinWriter(s, x, writer);
      } else {
        StepMaps(s, op, x);
        NewMapCoherent(s, op, writer, x, s.replicas[op.i]);
      }
    }
    forall x, y | x in Maps(t) && y in Maps(t) ensures Compatible(x, y) {
      if x !in Maps(s) && y in Maps(s) {
        NewMapCoherent(s, op, writer, x, y);
      } else if x in Maps(s) && y !in Maps(s) {
        NewMapCoherent(s, op, writer, y, x);
        CompatibleSymmetric(y, x);
      } else if x !in Maps(s) {
        OneNewMap(s, op, x, y);
      }
    }
  }

  lemma {:induction false} RunsKeepCoherent(s: Swarm, ops: seq<Op>, writer: Key -> nat)
    requires Coherent(s, writer) && forall i | 0 <= i < |ops| :: ByWriter(ops[i], writer)
    ensures Coherent(Run(s, ops), writer)
    decreases |ops|
  {
    if ops != [] {
      StepKeepsCoherent(s, ops[0], writer);
      RunsKeepCoherent(Step(s, ops[0]), ops[1..], writer);
    }
  }

  lemma StartCoherent(n: nat, writer: Key -> nat)
    ensures Coherent(Start(n), writer)
  {
    assert forall x | x in Maps(Start(n)) :: x == FRESH;
  }

  /** When no two replicas assign the same key, then after any run any two replicas that merge the same maps,
      in whatever order and however often, end up with the same map. */
  lemma SingleWritersConverge(n: nat, ops: seq<Op>, writer: Key -> nat, a: Replica, xs: seq<Replica>, b: Replica, ys: seq<Replica>)
    requires forall i | 0 <= i < |ops| :: ByWriter(ops[i], writer)
    requires Everyone(a, xs) == Everyone(b, ys) && forall x | x in Everyone(a, xs) :: x in Maps(Run(Start(n), ops))
    ensures MergeAll(a, xs) == MergeAll(b, ys)
  {
    StartCoherent(n, writer);
    RunsKeepCoherent(Start(n), ops, writer);
    Convergence(a, xs, b, ys);
  }

  // --- Where convergence ends ---

  /** The step neither assigns the key anew nor removes one of the two peers. */
  predicate LeavesAlone(op: Op, key: Key, p: string, q: string) {
    match op
    case Assign(_, k, _) => k != key
    case RemovePeer(_, peer) => peer != p && peer != q
    case _ => true
  }

  predicate HoldsEntry(m: Replica, key: Key, peer: string, version: nat) {
    key in m.entries && m.entries[key].peerId == peer && m.entries[key].version == version
  }

  /** Nobody has a newer entry of the key. */
  predicate NoneNewer(s: Swarm, key: Key, version: nat) {
    forall x | x in Maps(s) :: key in x.entries ==> x.entries[key].version <= version
  }

  /** Replicas `i` and `j` give the key to different peers, in the same version, and nobody knows a newer one. */
  predicate InConflict(s: Swarm, i: nat, j: nat, key: Key, p: string, q: string, version: nat) {
    && i < |s.replicas| && j < |s.replicas| && p != q
    && HoldsEntry(s.replicas[i], key, p, version) && HoldsEntry(s.replicas[j], key, q, version)
    && NoneNewer(s, key, version)
  }

  lemma StepKeepsNoneNewer(s: Swarm, op: Op, key: Key, p: string, q: string, version: nat)
    requires NoneNewer(s, key, version) && LeavesAlone(op, key, p, q)
    ensures NoneNewer(Step(s, op), key, version)
  {
    forall x | x in Maps(Step(s, op)) ensures key in x.entries ==> x.entries[key].version <= version {
      if x !in Maps(s) {
        StepMaps(s, op, x);
      }
    }
  }

  lemma StepKeepsConflict(s: Swarm, op: Op, i: nat, j: nat, key: Key, p: string, q: string, version: nat)
    requires InConflict(s, i, j, key, p, q, version) && LeavesAlone(op, key, p, q)
    ensures InConflict(Step(s, op), i, j, key, p, q, version)
  {
    StepKeepsNoneNewer(s, op, key, p, q, version);
    if op.Receive? && op.i < |s.replicas| && op.snapshot < |s.published| {
      assert Maps(s)[|s.replicas| + op.snapshot] == s.published[op.snapshot];
      assert s.published[op.snapshot] in Maps(s);
    }
  }

  /** However the two publish, receive and merge, and whatever others do: until the key is assigned anew or one of the
      peers is removed, they go on giving it to different peers. */
  lemma {:induction false} ConflictPersists(s: Swarm, ops: seq<Op>, i: nat, j: nat, key: Key, p: string, q: string, version: nat)
    requires InConflict(s, i, j, key, p, q, version)
    requires forall n | 0 <= n < |ops| :: LeavesAlone(ops[n], key, p, q)
    ensures InConflict(Run(s, ops), i, j, key, p, q, version)
    decreases |ops|
  {
    if ops != [] {
      StepKeepsConflict(s, ops[0], i, j, key, p, q, version);
      ConflictPersists(Step(s, ops[0]), ops[1..], i, j, key, p, q, version);
    }
  }

  lemma AssigningBothConflicts(s: Swarm, i: nat, j: nat, key: Key, p: string, q: string)
    requires AllInOrder(s) && i < |s.replicas| && j < |s.replicas| && i != j && p != q
    requires s.replicas[i].clock == s.replicas[j].clock && ClocksUpTo(s, s.replicas[i].clock)
    ensures InConflict(Step(Step(s, Assign(i, key, p)), Assign(j, key, q)), i, j, key, p, q, s.replicas[i].clock + 1)
  {
    var version := s.replicas[i].clock + 1;
    var t := Step(s, Assign(i, key, p));
    var u := Step(t, Assign(j, key, q));
    forall x | x in Maps(s) ensures key in x.entries ==> x.entries[key].version <= version {
      var n :| 0 <= n < |Maps(s)| && Maps(s)[n] == x;
      assert InOrder(Maps(s)[n]);
    }
    forall x | x in Maps(u) ensures key in x.entries ==> x.entries[key].version <= version {
      if x !in Maps(t) {
        StepMaps(t, Assign(j, key, q), x);
      } else if x !in Maps(s) {
        StepMaps(s, Assign(i, key, p), x);
      }
    }
  }

  lemma {:induction false} RunKeepsCount(s: Swarm, ops: seq<Op>)
    ensures |Run(s, ops).replicas| == |s.replicas|
    decreases |ops|
  {
    if ops != [] {
      RunKeepsCount(Step(s, ops[0]), ops[1..]);
    }
  }

  /** Two replicas that assign one key at the same clock, which nobody is ahead of, to two peers never agree again: not after
      any run of publishing, receiving, assigning other keys and removing other peers. */
  lemma ConcurrentAssignmentsConflict(s: Swarm, i: nat, j: nat, key: Key, p: string, q: string, ops: seq<Op>)
    requires AllInOrder(s) && i < |s.replicas| && j < |s.replicas| && i != j && p != q
    requires s.replicas[i].clock == s.replicas[j].clock && ClocksUpTo(s, s.replicas[i].clock)
    requires forall n | 0 <= n < |ops| :: LeavesAlone(ops[n], key, p, q)
    ensures var t := Run(Step(Step(s, Assign(i, key, p)), Assign(j, key, q)), ops);
      && |t.replicas| == |s.replicas| && key in t.replicas[i].entries && key in t.replicas[j].entries
      && t.replicas[i].entries[key].peerId == p && t.replicas[j].entries[key].peerId == q
  {
    var u := Step(Step(s, Assign(i, key, p)), Assign(j, key, q));
    AssigningBothConflicts(s, i, j, key, p, q);
    ConflictPersists(u, ops, i, j, key, p, q, s.replicas[i].clock + 1);
    RunKeepsCount(u, ops);
  }

  /** It takes no more than two fresh replicas. */
  lemma FreshReplicasConflict(key: Key, p: string, q: string, ops: seq<Op>)
    requires p != q && forall n | 0 <= n < |ops| :: LeavesAlone(ops[n], key, p, q)
    ensures var t := Run(Start(2), [Assign(0, key, p), Assign(1, key, q)] + ops);
      && |t.replicas| == 2 && key in t.replicas[0].entries && key in t.replicas[1].entries
      && t.replicas[0].entries[key].peerId == p && t.replicas[1].entries[key].peerId == q
  {
    var first, second := Assign(0, key, p), Assign(1, key, q);
    StartInOrder(2);
    ConcurrentAssignmentsConflict(Start(2), 0, 1, key, p, q, ops);
    assert ([first, second] + ops)[1..] == [second] + ops && ([second] + ops)[1..] == ops;
  }

  /** With different versions one exchange settles it: both then hold the newer entry. */
  lemma DifferentVersionsSettle(a: Replica, b: Replica, key: Key)
    requires key in a.entries && key in b.entries && a.entries[key].version != b.entries[key].version
    ensures Merged(a, b).entries[key] == Merged(b, a).entries[key]
         == if a.entries[key].version < b.entries[key].version then b.entries[key] else a.entries[key]
  {
  }

  predicate Hosts(m: Replica, peer: string, k: Key) {
    k in m.entries && m.entries[k].peerId == peer
  }

  /** Removing a peer leaves no trace: a key is the peer's again after a merge exactly when the other map gives it to the
      peer and the local map has no entry as new of another peer. */
  lemma RemovedPeerReturnsIff(m: Replica, b: Replica, peer: string, k: Key)
    ensures !Hosts(Without(m, peer), peer, k)
    ensures Hosts(Merged(Without(m, peer), b), peer, k) <==>
      Hosts(b, peer, k) && (k in m.entries && !Hosts(m, peer, k) ==> m.entries[k].version < b.entries[k].version)
  {
  }

  /** In particular one merge of a snapshot taken before undoes the whole removal. */
  lemma SnapshotUndoesRemoval(m: Replica, peer: string)
    ensures Merged(Without(m, peer), m) == m
  {
    SameReplica(Merged(Without(m, peer), m), m);
  }

  // --- The program ---

  predicate Covers(e: Entry, modelId: string, layer: nat) {
    e.modelId == modelId && e.layerStart <= layer < e.layerEnd
  }

  predicate StartLe(a: Entry, b: Entry) {
    a.layerStart <= b.layerStart
  }

  /** Each entry begins where the one before it ends, and none is empty. */
  predicate Tiles(p: seq<Entry>, from: nat, to: nat) {
    if p == [] then from == to
    else p[0].layerStart == from && from < p[0].layerEnd && Tiles(p[1..], p[0].layerEnd, to)
  }

  lemma {:induction false} TilesForward(p: seq<Entry>, from: nat, to: nat)
    requires Tiles(p, from, to)
    ensures from <= to && forall e | e in p :: from <= e.layerStart < e.layerEnd <= to
  {
    if p != [] {
      TilesForward(p[1..], p[0].layerEnd, to);
      assert forall e | e in p :: e == p[0] || e in p[1..];
    }
  }

  /** Where the pipeline of a model tiles its layers, exactly one peer serves each of them, and nobody a layer beyond. */
  lemma {:induction false} PipelineServesOnce(p: seq<Entry>, modelId: string, from: nat, to: nat, layer: nat)
    requires Tiles(p, from, to) && forall e | e in p :: e.modelId == modelId
    ensures (exists e :: e in p && Covers(e, modelId, layer)) <==> from <= layer < to
    ensures forall e, f | e in p && f in p && Covers(e, modelId, layer) && Covers(f, modelId, layer) :: e == f
    ensures forall e, other: string | e in p && other != modelId :: !Covers(e, other, layer)
  {
    TilesForward(p, from, to);
    if p != [] {
      PipelineServesOnce(p[1..], modelId, p[0].layerEnd, to, layer);
      TilesForward(p[1..], p[0].layerEnd, to);
      assert forall e :: e in p <==> e == p[0] || e in p[1..];
      if from <= layer < p[0].layerEnd { assert Covers(p[0], modelId, layer); }
    }
  }

  class ShardMapStore {
    var entries: map<Key, Entry>
    var clock: nat

    function Contents(): Replica
      reads this
    {
      Replica(entries, clock)
    }

    constructor ()
      ensures Contents() == FRESH
    {
      entries, clock := map[], 0;
    }

    method Assign(modelId: string, layerStart: nat, layerEnd: nat, peerId: string)
      modifies this
      ensures Contents() == Assigned(old(Contents()), (modelId, layerStart, layerEnd), peerId)
    {
      clock := clock + 1;
      var entry := Entry(modelId, layerStart, layerEnd, peerId, clock);
      entries := entries[(modelId, layerStart, layerEnd) := entry];
    }

    method RemovePeer(peerId: string)
      modifies this`entries
      ensures Contents() == Without(old(Contents()), peerId)
    {
      entries := map k | k in entries && entries[k].peerId != peerId :: entries[k];
    }

    /** `merge`: the remote entries in whatever order they come. */
    method Merge(other: ShardMapStore)
      requires other != this
      modifies this
      ensures Contents() == Merged(old(Contents()), other.Contents())
    {
      var todo := other.entries.Keys;
      while todo != {}
        invariant clock == old(clock) && todo <= other.entries.Keys
        invariant entries.Keys == old(entries).Keys + (other.entries.Keys - todo)
        invariant forall k | k in entries ::
            entries[k] == if k in todo then old(entries)[k] else Winner(old(Contents()), other.Contents(), k)
        decreases todo
      {
        var k :| k in todo;
        if Dominated(entries, k, other.entries[k]) {
          entries := entries[k := other.entries[k]];
        }
        todo := todo - {k};
      }
      clock := Max(clock, other.clock);
      SameReplica(Contents(), Merged(old(Contents()), other.Contents()));
    }

    /** `lookup`: some entry that covers the layer, whenever there is one. */
    method Lookup(modelId: string, layer: nat) returns (r: Option<Entry>)
      ensures r.Some? ==> r.value in entries.Values && Covers(r.value, modelId, layer)
      ensures r.None? ==> forall e | e in entries.Values :: !Covers(e, modelId, layer)
    {
      var todo := entries.Values;
      while todo != {}
        invariant todo <= entries.Values
        invariant forall e | e in entries.Values && e !in todo :: !Covers(e, modelId, layer)
        decreases todo
      {
        var e :| e in todo;
        if Covers(e, modelId, layer) {
          return Some(e);
        }
        todo := todo - {e};
      }
      r := None;
    }

    /** The entries of a model, each once. */
    method Collect(modelId: string) returns (r: seq<Entry>)
      requires InOrder(Contents())
      ensures Distinct(r)
      ensures forall e :: e in r <==> e in entries.Values && e.modelId == modelId
    {
      r := [];
      var todo := entries.Keys;
      while todo != {}
        invariant todo <= entries.Keys && Distinct(r)
        invariant forall e | e in r :: e in entries.Values && e.modelId == modelId && (e.modelId, e.layerStart, e.layerEnd) !in todo
        invariant forall k | k in entries && k !in todo && entries[k].modelId == modelId :: entries[k] in r
        decreases todo
      {
        var k :| k in todo;
        assert KeyFits(k, entries[k]);
        if entries[k].modelId == modelId {
          r := r + [entries[k]];
        }
        todo := todo - {k};
      }
    }

    /** `pipeline`: exactly the entries of the model, each once, by first layer. */
    method Pipeline(modelId: string) returns (r: seq<Entry>)
      requires InOrder(Contents())
      ensures Distinct(r) && Sorted(StartLe, r)
      ensures forall e :: e in r <==> e in entries.Values && e.modelId == modelId
    {
      var collected := Collect(modelId);
      r := Sort(StartLe, collected);
      SortSorts(StartLe, collected);
      SortDistinct(StartLe, collected);
      SortMembers(StartLe, collected);
    }
  }
}
