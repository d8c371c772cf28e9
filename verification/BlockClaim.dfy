/** Exclusive claims on block devices (fs/block_dev.c).

A disk and its partitions are claimed in two phases.  Starting a claim checks that it may be granted
and reserves the whole disk's `claiming` slot; the lock is then dropped while the device is opened;
finishing either records the claim or abandons it.  Counting goes twice into the whole disk, and a
whole disk with claimed partitions carries a marker as its holder.

The reference is a plain lock manager: a list of outstanding claims that must be pairwise
compatible.  The main results, over every interleaving of every number of threads: outstanding
claims stay compatible, the counters are exactly twice the disk's own claims plus its partitions'
claims, a claim is refused exactly when it conflicts, and no assertion of the code fires although
the lock is dropped between the two phases.
*/
module BlockClaim {

  datatype Dev = Whole(disk: nat) | Part(disk: nat, partno: nat)

  /** bd_contains. */
  function Container(d: Dev): Dev {
    Whole(d.disk)
  }

  /** A holder pointer: null, the address of bd_may_claim, or a real holder. */
  datatype Owner = Nobody | Marker | By(holder: nat)

  datatype Bdev = Bdev(holder: Owner, holders: int, claiming: Owner)

  type Devices = map<Dev, Bdev>

  datatype Claim = Claim(dev: Dev, who: nat)

  /** The whole disk of every device is known. */
  ghost predicate Closed(devs: Devices) {
    forall d :: d in devs ==> Container(d) in devs
  }

  // ------------------------------------------------------------------ the code's transitions

  /** bd_may_claim. */
  predicate MayClaim(devs: Devices, c: Claim)
    requires c.dev in devs && Container(c.dev) in devs
  {
    var whole := Container(c.dev);
    if devs[c.dev].holder == By(c.who) then true
    else if devs[c.dev].holder != Nobody then false
    else if whole == c.dev then true
    else if devs[whole].holder == Marker then true
    else if devs[whole].holder != Nobody then false
    else true
  }

  datatype StartResult = Granted | Busy | Wait

  /** One pass of bd_prepare_to_claim; `Wait` sleeps and retries. */
  function Start(devs: Devices, c: Claim): StartResult
    requires c.dev in devs && Container(c.dev) in devs
  {
    if !MayClaim(devs, c) then Busy
    else if devs[Container(c.dev)].claiming != Nobody then Wait
    else Granted
  }

  /** The reservation bd_start_claiming makes. */
  function Reserved(devs: Devices, c: Claim): Devices
    requires Container(c.dev) in devs
  {
    var whole := Container(c.dev);
    devs[whole := devs[whole].(claiming := By(c.who))]
  }

  /** The four assignments of a successful open, in order: on a whole disk they hit one record. */
  function Recorded(devs: Devices, c: Claim): Devices
    requires c.dev in devs && Container(c.dev) in devs
  {
    var whole := Container(c.dev);
    var a := devs[whole := devs[whole].(holders := devs[whole].holders + 1, holder := Marker)];
    a[c.dev := a[c.dev].(holders := a[c.dev].holders + 1, holder := By(c.who))]
  }

  function Unreserved(devs: Devices, c: Claim): Devices
    requires Container(c.dev) in devs
  {
    var whole := Container(c.dev);
    devs[whole := devs[whole].(claiming := Nobody)]
  }

  function Decremented(devs: Devices, d: Dev): Devices
    requires d in devs
  {
    devs[d := devs[d].(holders := devs[d].holders - 1)]
  }

  function ClearedIfFree(devs: Devices, d: Dev): Devices
    requires d in devs
  {
    if devs[d].holders == 0 then devs[d := devs[d].(holder := Nobody)] else devs
  }

  /** blkdev_put: both counters drop, then each holder is cleared if its counter reached zero. */
  function Dropped(devs: Devices, d: Dev): Devices
    requires d in devs && Container(d) in devs
  {
    var whole := Container(d);
    ClearedIfFree(ClearedIfFree(Decremented(Decremented(devs, d), whole), d), whole)
  }

  // ------------------------------------------------------------------ interleavings

  /** `pending`: threads between the two phases; `claims`: the exclusive opens not yet put. */
  datatype State = State(devs: Devices, pending: map<nat, Claim>, claims: seq<Claim>)

  datatype Step =
    | Begin(thread: nat, claim: Claim)
    | Finish(thread: nat, success: bool)
    | Put(which: nat)

  /** `Bug`: a BUG_ON or WARN_ON of the code fired. */
  datatype Outcome = Ok(state: State) | Bug

  ghost predicate Enabled(s: State, step: Step) {
    match step
    case Begin(t, c) => t !in s.pending && c.dev in s.devs && Container(c.dev) in s.devs
    case Finish(t, _) =>
      && t in s.pending
      && s.pending[t].dev in s.devs && Container(s.pending[t].dev) in s.devs
    case Put(i) =>
      && i < |s.claims|
      && s.claims[i].dev in s.devs && Container(s.claims[i].dev) in s.devs
  }

  function Without<T>(s: seq<T>, i: nat): seq<T>
    requires i < |s|
  {
    s[..i] + s[i + 1..]
  }

  ghost function Apply(s: State, step: Step): Outcome
    requires Enabled(s, step)
  {
    match step
    case Begin(t, c) =>
      if Start(s.devs, c) == Granted
      then Ok(State(Reserved(s.devs, c), s.pending[t := c], s.claims))
      else Ok(s)
    case Finish(t, success) =>
      var c := s.pending[t];
      if success && !MayClaim(s.devs, c) then Bug
      else
        var devs := if success then Recorded(s.devs, c) else s.devs;
        if devs[Container(c.dev)].claiming != By(c.who) then Bug
        else Ok(State(Unreserved(devs, c), s.pending - {t},
                      if success then s.claims + [c] else s.claims))
    case Put(i) =>
      var d := s.claims[i].dev;
      var drop := if d == Container(d) then 2 else 1;
      if s.devs[d].holders < drop || s.devs[Container(d)].holders < drop then Bug
      else Ok(State(Dropped(s.devs, d), s.pending, Without(s.claims, i)))
  }

  ghost predicate Initial(s: State) {
    && Closed(s.devs)
    && (forall d :: d in s.devs ==> s.devs[d] == Bdev(Nobody, 0, Nobody))
    && s.pending == map[] && s.claims == []
  }

  /** `trace` is a run of the system taking `steps` in order. */
  ghost predicate Run(trace: seq<State>, steps: seq<Step>) {
    && |trace| == |steps| + 1
    && Initial(trace[0])
    && forall i :: 0 <= i < |steps| ==>
         Enabled(trace[i], steps[i]) && Apply(trace[i], steps[i]) == Ok(trace[i + 1])
  }

  // ------------------------------------------------------------------ the reference

  /** Two claims may coexist: different disks, the same device for the same holder, or two
      different partitions.  A disk and its partition never may, not even for one holder. */
  predicate Compatible(a: Claim, b: Claim) {
    || a.dev.disk != b.dev.disk
    || a == b
    || (a.dev.Part? && b.dev.Part? && a.dev != b.dev)
  }

  /** How often claim `c` counts in the holders field of `d`. */
  function Share(c: Claim, d: Dev): nat {
    (if c.dev == d then 1 else 0) + (if Container(c.dev) == d then 1 else 0)
  }

  function Weight(claims: seq<Claim>, d: Dev): nat {
    if claims == [] then 0
    else Weight(claims[..|claims| - 1], d) + Share(claims[|claims| - 1], d)
  }

  function CountOn(claims: seq<Claim>, d: Dev): nat {
    if claims == [] then 0
    else CountOn(claims[..|claims| - 1], d) + (if claims[|claims| - 1].dev == d then 1 else 0)
  }

  function CountOnPartitions(claims: seq<Claim>, disk: nat): nat {
    if claims == [] then 0
    else
      var last := claims[|claims| - 1].dev;
      CountOnPartitions(claims[..|claims| - 1], disk)
      + (if last.Part? && last.disk == disk then 1 else 0)
  }

  /** The double counting: own claims count twice on a whole disk, partition claims once. */
  lemma {:induction false} WeightCounts(claims: seq<Claim>, d: Dev)
    ensures d.Whole? ==>
              Weight(claims, d) == 2 * CountOn(claims, d) + CountOnPartitions(claims, d.disk)
    ensures d.Part? ==> Weight(claims, d) == CountOn(claims, d)
  {
    if claims != [] {
      WeightCounts(claims[..|claims| - 1], d);
    }
  }

  lemma {:induction false} WeightOfSum(a: seq<Claim>, b: seq<Claim>, d: Dev)
    ensures Weight(a + b, d) == Weight(a, d) + Weight(b, d)
  {
    if b == [] {
      assert a + b == a;
    } else {
      var n := |b| - 1;
      assert (a + b)[..|a + b| - 1] == a + b[..n];
      WeightOfSum(a, b[..n], d);
    }
  }

  lemma WeightWithout(claims: seq<Claim>, i: nat, d: Dev)
    requires i < |claims|
    ensures Weight(claims, d) == Weight(Without(claims, i), d) + Share(claims[i], d)
  {
    assert claims == claims[..i] + ([claims[i]] + claims[i + 1..]);
    WeightOfSum(claims[..i], [claims[i]] + claims[i + 1..], d);
    WeightOfSum([claims[i]], claims[i + 1..], d);
    WeightOfSum(claims[..i], claims[i + 1..], d);
    assert [claims[i]][..0] == [];
    assert Weight([claims[i]], d) == Weight([], d) + Share(claims[i], d);
  }

  lemma {:induction false} WeightPositive(claims: seq<Claim>, d: Dev)
    ensures Weight(claims, d) > 0 <==> exists i :: 0 <= i < |claims| && Share(claims[i], d) > 0
  {
    if claims != [] {
      var n := |claims| - 1;
      WeightPositive(claims[..n], d);
      if i :| 0 <= i < n && Share(claims[..n][i], d) > 0 {
        assert Share(claims[i], d) > 0;
      }
      if i :| 0 <= i < |claims| && Share(claims[i], d) > 0 {
        assert i < n ==> Share(claims[..n][i], d) > 0;
      }
    }
  }

  // ------------------------------------------------------------------ the invariant

  ghost predicate PairwiseCompatible(claims: seq<Claim>) {
    forall i, j :: 0 <= i < j < |claims| ==> Compatible(claims[i], claims[j])
  }

  ghost predicate ClaimedDirectly(claims: seq<Claim>, d: Dev) {
    exists i :: 0 <= i < |claims| && claims[i].dev == d
  }

  /** The device records say exactly what the outstanding claims are. */
  ghost predicate Agrees(devs: Devices, claims: seq<Claim>) {
    && Closed(devs)
    && PairwiseCompatible(claims)
    && (forall i :: 0 <= i < |claims| ==>
          claims[i].dev in devs && devs[claims[i].dev].holder == By(claims[i].who))
    && (forall d :: d in devs ==> devs[d].holders == Weight(claims, d))
    && (forall d :: d in devs && !ClaimedDirectly(claims, d) ==>
          devs[d].holder == if Weight(claims, d) > 0 then Marker else Nobody)
  }

  ghost predicate SomeonePending(pending: map<nat, Claim>, disk: nat) {
    exists t :: t in pending && pending[t].dev.disk == disk
  }

  /** A pending claim's disk slot names its holder, and no other thread is pending on that disk. */
  ghost predicate SlotsNamed(devs: Devices, pending: map<nat, Claim>) {
    && (forall t :: t in pending ==>
          && pending[t].dev in devs
          && Container(pending[t].dev) in devs
          && devs[Container(pending[t].dev)].claiming == By(pending[t].who))
    && (forall t, u :: t in pending && u in pending && t != u ==>
          pending[t].dev.disk != pending[u].dev.disk)
  }

  ghost predicate SlotsUsed(devs: Devices, pending: map<nat, Claim>) {
    forall disk :: Whole(disk) in devs && devs[Whole(disk)].claiming != Nobody ==>
      SomeonePending(pending, disk)
  }

  /** What was checked when a pending claim was reserved is still true. */
  ghost predicate StillCompatible(pending: map<nat, Claim>, claims: seq<Claim>) {
    forall t, i :: t in pending && 0 <= i < |claims| ==> Compatible(claims[i], pending[t])
  }

  ghost predicate Inv(s: State) {
    && Agrees(s.devs, s.claims)
    && SlotsNamed(s.devs, s.pending)
    && SlotsUsed(s.devs, s.pending)
    && StillCompatible(s.pending, s.claims)
  }

  lemma RefusalNamesAConflict(devs: Devices, claims: seq<Claim>, c: Claim)
    requires Agrees(devs, claims) && c.dev in devs && !MayClaim(devs, c)
    ensures exists i :: 0 <= i < |claims| && !Compatible(claims[i], c)
  {
    var whole := Container(c.dev);
    if ClaimedDirectly(claims, c.dev) {
      var k :| 0 <= k < |claims| && claims[k].dev == c.dev;
      assert !Compatible(claims[k], c);
    } else if devs[c.dev].holder == Marker {
      WeightPositive(claims, c.dev);
      var k :| 0 <= k < |claims| && Share(claims[k], c.dev) > 0;
      assert !Compatible(claims[k], c);
    } else {
      assert ClaimedDirectly(claims, whole);
      var k :| 0 <= k < |claims| && claims[k].dev == whole;
      assert !Compatible(claims[k], c);
    }
  }

  lemma GrantHasNoConflict(devs: Devices, claims: seq<Claim>, c: Claim, k: nat)
    requires Agrees(devs, claims) && c.dev in devs && MayClaim(devs, c) && k < |claims|
    ensures Compatible(claims[k], c)
  {
    if devs[c.dev].holder == By(c.who) {
      assert ClaimedDirectly(claims, c.dev);
      var j :| 0 <= j < |claims| && claims[j].dev == c.dev;
      assert claims[j] == c;
    } else {
      var whole := Container(c.dev);
      WeightPositive(claims, c.dev);
      WeightPositive(claims, whole);
      assert Share(claims[k], c.dev) == 0 by {
        assert !ClaimedDirectly(claims, c.dev);
      }
      if claims[k].dev.disk == c.dev.disk {
        assert Share(claims[k], whole) > 0;
      }
    }
  }

  /** The decision made from the two records is the reference decision over all claims. */
  lemma MayClaimIsCompatibility(devs: Devices, claims: seq<Claim>, c: Claim)
    requires Agrees(devs, claims) && c.dev in devs
    ensures MayClaim(devs, c) <==> forall i :: 0 <= i < |claims| ==> Compatible(claims[i], c)
  {
    if MayClaim(devs, c) {
      forall k | 0 <= k < |claims| {
        GrantHasNoConflict(devs, claims, c, k);
      }
    } else {
      RefusalNamesAConflict(devs, claims, c);
    }
  }

  lemma ClaimedAfterAppend(claims: seq<Claim>, c: Claim, d: Dev)
    ensures ClaimedDirectly(claims + [c], d) <==> ClaimedDirectly(claims, d) || c.dev == d
  {
    var after := claims + [c];
    assert after[|claims|] == c;
    if k :| 0 <= k < |claims| && claims[k].dev == d {
      assert after[k].dev == d;
    }
  }

  lemma ClaimedAfterRemoval(claims: seq<Claim>, i: nat, d: Dev)
    requires i < |claims| && d != claims[i].dev
    ensures ClaimedDirectly(Without(claims, i), d) <==> ClaimedDirectly(claims, d)
  {
    var after := Without(claims, i);
    if k :| 0 <= k < |claims| && claims[k].dev == d {
      assert after[if k < i then k else k - 1] == claims[k];
    }
    if k :| 0 <= k < |after| && after[k].dev == d {
      assert claims[if k < i then k else k + 1] == after[k];
    }
  }

  lemma RecordedElsewhere(devs: Devices, claims: seq<Claim>, c: Claim, d: Dev)
    requires Agrees(devs, claims) && c.dev in devs && d in devs
    ensures Recorded(devs, c)[d].holders == Weight(claims + [c], d)
    ensures !ClaimedDirectly(claims + [c], d) ==>
              Recorded(devs, c)[d].holder ==
              if Weight(claims + [c], d) > 0 then Marker else Nobody
  {
    assert (claims + [c])[..|claims|] == claims;
    ClaimedAfterAppend(claims, c, d);
  }

  lemma RecordingKeepsAgreement(devs: Devices, claims: seq<Claim>, c: Claim)
    requires Agrees(devs, claims) && c.dev in devs
    requires MayClaim(devs, c)
    ensures Agrees(Recorded(devs, c), claims + [c])
  {
    MayClaimIsCompatibility(devs, claims, c);
    forall d | d in devs {
      RecordedElsewhere(devs, claims, c, d);
    }
  }

  lemma ReservingKeepsAgreement(devs: Devices, claims: seq<Claim>, whole: Dev, o: Owner)
    requires Agrees(devs, claims) && whole in devs
    ensures Agrees(devs[whole := devs[whole].(claiming := o)], claims)
  {
  }

  lemma OthersAreCompatible(claims: seq<Claim>, i: nat)
    requires PairwiseCompatible(claims) && i < |claims|
    ensures PairwiseCompatible(Without(claims, i))
    ensures forall k :: 0 <= k < |Without(claims, i)| ==>
              Without(claims, i)[k] in claims && Compatible(Without(claims, i)[k], claims[i])
  {
  }

  /** A put of the last claim clears the holder; of any other leaves it to the remaining ones. */
  lemma DroppedHolder(devs: Devices, claims: seq<Claim>, i: nat)
    requires Agrees(devs, claims) && i < |claims|
    ensures var d, after := claims[i].dev, Without(claims, i);
            Dropped(devs, d)[d].holder ==
            if ClaimedDirectly(after, d) then By(claims[i].who) else Nobody
    ensures var d, after := claims[i].dev, Without(claims, i);
            !ClaimedDirectly(after, d) ==> Weight(after, d) == 0
  {
    var c := claims[i];
    var after := Without(claims, i);
    WeightWithout(claims, i, c.dev);
    WeightPositive(after, c.dev);
    OthersAreCompatible(claims, i);
    if ClaimedDirectly(after, c.dev) {
      var k :| 0 <= k < |after| && after[k].dev == c.dev;
      assert Share(after[k], c.dev) > 0;
    }
  }

  lemma DroppedFrame(devs: Devices, d: Dev, e: Dev)
    requires d in devs && Container(d) in devs && e in devs
    ensures Dropped(devs, d).Keys == devs.Keys
    ensures Dropped(devs, d)[e].claiming == devs[e].claiming
    ensures Dropped(devs, d)[e].holders == devs[e].holders - Share(Claim(d, 0), e)
    ensures e != d && e != Container(d) ==> Dropped(devs, d)[e] == devs[e]
    ensures e != d && e == Container(d) ==>
              Dropped(devs, d)[e].holder ==
              if devs[e].holders == 1 then Nobody else devs[e].holder
  {
  }

  lemma DroppedElsewhere(devs: Devices, claims: seq<Claim>, i: nat, e: Dev)
    requires Agrees(devs, claims) && i < |claims| && e in devs
    ensures Dropped(devs, claims[i].dev)[e].holders == Weight(Without(claims, i), e)
    ensures !ClaimedDirectly(Without(claims, i), e) ==>
              Dropped(devs, claims[i].dev)[e].holder ==
              if Weight(Without(claims, i), e) > 0 then Marker else Nobody
  {
    DroppedFrame(devs, claims[i].dev, e);
    WeightWithout(claims, i, e);
    if e == claims[i].dev {
      DroppedHolder(devs, claims, i);
    } else {
      ClaimedAfterRemoval(claims, i, e);
    }
  }

  lemma DroppedOthersHold(devs: Devices, claims: seq<Claim>, i: nat, k: nat)
    requires Agrees(devs, claims) && i < |claims| && k < |Without(claims, i)|
    ensures var c := Without(claims, i)[k];
            c.dev in Dropped(devs, claims[i].dev) &&
            Dropped(devs, claims[i].dev)[c.dev].holder == By(c.who)
  {
    var c := Without(claims, i)[k];
    OthersAreCompatible(claims, i);
    DroppedFrame(devs, claims[i].dev, c.dev);
    if c.dev == claims[i].dev {
      DroppedHolder(devs, claims, i);
    }
  }

  lemma DroppingKeepsAgreement(devs: Devices, claims: seq<Claim>, i: nat)
    requires Agrees(devs, claims) && i < |claims|
    ensures Agrees(Dropped(devs, claims[i].dev), Without(claims, i))
  {
    OthersAreCompatible(claims, i);
    DroppedFrame(devs, claims[i].dev, claims[i].dev);
    forall e | e in devs {
      DroppedElsewhere(devs, claims, i, e);
    }
    forall k | 0 <= k < |Without(claims, i)| {
      DroppedOthersHold(devs, claims, i, k);
    }
  }

  /** Reserving keeps the slots in order. */
  lemma ReservingKeepsSlots(devs: Devices, pending: map<nat, Claim>, t: nat, c: Claim)
    requires SlotsNamed(devs, pending) && SlotsUsed(devs, pending)
    requires t !in pending && c.dev in devs && Container(c.dev) in devs
    requires devs[Container(c.dev)].claiming == Nobody
    ensures SlotsNamed(Reserved(devs, c), pending[t := c])
    ensures SlotsUsed(Reserved(devs, c), pending[t := c])
  {
    var after := pending[t := c];
    forall disk | Whole(disk) in devs && Reserved(devs, c)[Whole(disk)].claiming != Nobody
      ensures SomeonePending(after, disk)
    {
      if disk == c.dev.disk {
        assert after[t].dev.disk == disk;
      } else {
        var u :| u in pending && pending[u].dev.disk == disk;
        assert after[u].dev.disk == disk;
      }
    }
  }

  lemma UnreservingKeepsSlots(devs: Devices, pending: map<nat, Claim>, t: nat)
    requires SlotsNamed(devs, pending) && SlotsUsed(devs, pending) && t in pending
    ensures SlotsNamed(Unreserved(devs, pending[t]), pending - {t})
    ensures SlotsUsed(Unreserved(devs, pending[t]), pending - {t})
  {
    var after := pending - {t};
    var devs' := Unreserved(devs, pending[t]);
    forall disk | Whole(disk) in devs' && devs'[Whole(disk)].claiming != Nobody
      ensures SomeonePending(after, disk)
    {
      var u :| u in pending && pending[u].dev.disk == disk;
      assert after[u].dev.disk == disk;
    }
  }

  /** Steps that leave the slots and the pending claims alone keep both in order. */
  lemma SameSlots(devs: Devices, devs': Devices, pending: map<nat, Claim>)
    requires SlotsNamed(devs, pending) && SlotsUsed(devs, pending)
    requires devs'.Keys == devs.Keys
    requires forall d :: d in devs ==> devs'[d].claiming == devs[d].claiming
    ensures SlotsNamed(devs', pending) && SlotsUsed(devs', pending)
  {
  }

  lemma BeginKeepsInv(s: State, t: nat, c: Claim)
    requires Inv(s) && Enabled(s, Begin(t, c))
    ensures Inv(Apply(s, Begin(t, c)).state)
  {
    if Start(s.devs, c) == Granted {
      MayClaimIsCompatibility(s.devs, s.claims, c);
      ReservingKeepsAgreement(s.devs, s.claims, Container(c.dev), By(c.who));
      ReservingKeepsSlots(s.devs, s.pending, t, c);
    }
  }

  lemma RecordingKeepsSlots(devs: Devices, pending: map<nat, Claim>, c: Claim)
    requires SlotsNamed(devs, pending) && SlotsUsed(devs, pending)
    requires c.dev in devs && Container(c.dev) in devs
    ensures SlotsNamed(Recorded(devs, c), pending) && SlotsUsed(Recorded(devs, c), pending)
  {
    SameSlots(devs, Recorded(devs, c), pending);
  }

  lemma DroppingKeepsSlots(devs: Devices, pending: map<nat, Claim>, d: Dev)
    requires SlotsNamed(devs, pending) && SlotsUsed(devs, pending)
    requires d in devs && Container(d) in devs
    ensures SlotsNamed(Dropped(devs, d), pending) && SlotsUsed(Dropped(devs, d), pending)
  {
    DroppedFrame(devs, d, d);
    forall e | e in devs {
      DroppedFrame(devs, d, e);
    }
    SameSlots(devs, Dropped(devs, d), pending);
  }

  /** A finished claim does not disturb the other disks' pending claims. */
  lemma RecordingKeepsCompatible(devs: Devices, pending: map<nat, Claim>, claims: seq<Claim>, t: nat)
    requires SlotsNamed(devs, pending) && StillCompatible(pending, claims) && t in pending
    ensures StillCompatible(pending - {t}, claims + [pending[t]])
  {
  }

  /** BUG_ON(!bd_may_claim(..)) does not fire: the check made before the lock was dropped holds. */
  lemma StillMayClaim(s: State, t: nat)
    requires Inv(s) && t in s.pending
    ensures MayClaim(s.devs, s.pending[t])
  {
    MayClaimIsCompatibility(s.devs, s.claims, s.pending[t]);
  }

  lemma FinishKeepsInv(s: State, t: nat, success: bool)
    requires Inv(s) && Enabled(s, Finish(t, success))
    ensures Apply(s, Finish(t, success)).Ok? && Inv(Apply(s, Finish(t, success)).state)
  {
    var c := s.pending[t];
    if success {
      StillMayClaim(s, t);
      RecordingKeepsAgreement(s.devs, s.claims, c);
      RecordingKeepsSlots(s.devs, s.pending, c);
      RecordingKeepsCompatible(s.devs, s.pending, s.claims, t);
      ReservingKeepsAgreement(Recorded(s.devs, c), s.claims + [c], Container(c.dev), Nobody);
      UnreservingKeepsSlots(Recorded(s.devs, c), s.pending, t);
    } else {
      ReservingKeepsAgreement(s.devs, s.claims, Container(c.dev), Nobody);
      UnreservingKeepsSlots(s.devs, s.pending, t);
    }
  }

  /** WARN_ON_ONCE(--holders < 0) does not fire: the put claim is counted. */
  lemma PutIsCounted(devs: Devices, claims: seq<Claim>, i: nat)
    requires Agrees(devs, claims) && i < |claims|
    ensures var d := claims[i].dev;
            var drop := if d == Container(d) then 2 else 1;
            devs[d].holders >= drop && devs[Container(d)].holders >= drop
  {
    WeightWithout(claims, i, claims[i].dev);
    WeightWithout(claims, i, Container(claims[i].dev));
  }

  lemma RemovalKeepsCompatible(pending: map<nat, Claim>, claims: seq<Claim>, i: nat)
    requires StillCompatible(pending, claims) && i < |claims|
    ensures StillCompatible(pending, Without(claims, i))
  {
  }

  lemma PutKeepsInv(s: State, i: nat)
    requires Inv(s) && Enabled(s, Put(i))
    ensures Apply(s, Put(i)).Ok? && Inv(Apply(s, Put(i)).state)
  {
    PutIsCounted(s.devs, s.claims, i);
    DroppingKeepsAgreement(s.devs, s.claims, i);
    DroppingKeepsSlots(s.devs, s.pending, s.claims[i].dev);
    RemovalKeepsCompatible(s.pending, s.claims, i);
  }

  /** Every step from a good state succeeds, and leads to a good state. */
  lemma StepKeepsInv(s: State, step: Step)
    requires Inv(s) && Enabled(s, step)
    ensures Apply(s, step).Ok? && Inv(Apply(s, step).state)
  {
    match step
    case Begin(t, c) => BeginKeepsInv(s, t, c);
    case Finish(t, success) => FinishKeepsInv(s, t, success);
    case Put(i) => PutKeepsInv(s, i);
  }

  // ------------------------------------------------------------------ results over all runs

  lemma {:induction false} RunsKeepInv(trace: seq<State>, steps: seq<Step>, i: nat)
    requires Run(trace, steps) && i < |trace|
    ensures Inv(trace[i])
  {
    if i > 0 {
      RunsKeepInv(trace, steps, i - 1);
      StepKeepsInv(trace[i - 1], steps[i - 1]);
    } else {
      assert forall d :: d in trace[0].devs ==> !ClaimedDirectly([], d);
    }
  }

  /** Exclusion: in no reachable state do two outstanding claims conflict. */
  lemma ClaimsNeverConflict(trace: seq<State>, steps: seq<Step>, i: nat, j: nat, k: nat)
    requires Run(trace, steps) && i < |trace|
    requires j < |trace[i].claims| && k < |trace[i].claims| && j != k
    ensures var a, b := trace[i].claims[j], trace[i].claims[k];
            && (a.dev == b.dev ==> a.who == b.who)
            && !(a.dev == Container(b.dev) && b.dev.Part?)
  {
    RunsKeepInv(trace, steps, i);
  }

  /** The counters of every device in every reachable state. */
  lemma CountersAreExact(trace: seq<State>, steps: seq<Step>, i: nat, d: Dev)
    requires Run(trace, steps) && i < |trace| && d in trace[i].devs
    ensures var n := trace[i].devs[d].holders;
            && (d.Whole? ==> n == 2 * CountOn(trace[i].claims, d)
                                  + CountOnPartitions(trace[i].claims, d.disk))
            && (d.Part? ==> n == CountOn(trace[i].claims, d))
  {
    RunsKeepInv(trace, steps, i);
    WeightCounts(trace[i].claims, d);
  }

  /** No BUG_ON or WARN_ON fires on any step of any run, although other threads' steps come between
      a claim's two phases. */
  lemma NoAssertionFires(trace: seq<State>, steps: seq<Step>, i: nat, step: Step)
    requires Run(trace, steps) && i < |trace| && Enabled(trace[i], step)
    ensures Apply(trace[i], step).Ok?
  {
    RunsKeepInv(trace, steps, i);
    StepKeepsInv(trace[i], step);
  }

  /** EBUSY is returned exactly when some outstanding claim conflicts; a compatible claim waits
      exactly when another claim on the same disk is between its phases. */
  lemma RefusedExactlyOnConflict(trace: seq<State>, steps: seq<Step>, i: nat, c: Claim)
    requires Run(trace, steps) && i < |trace| && c.dev in trace[i].devs
    ensures Container(c.dev) in trace[i].devs
    ensures Start(trace[i].devs, c) == Busy <==>
            exists j :: 0 <= j < |trace[i].claims| && !Compatible(trace[i].claims[j], c)
    ensures Start(trace[i].devs, c) != Busy ==>
            (Start(trace[i].devs, c) == Wait <==> SomeonePending(trace[i].pending, c.dev.disk))
  {
    RunsKeepInv(trace, steps, i);
    MayClaimIsCompatibility(trace[i].devs, trace[i].claims, c);
  }

  // ------------------------------------------------------------------ the code on its objects

  class BlockDevice {
    const id: Dev
    var holder: Owner
    var holders: int
    var claiming: Owner

    constructor (id: Dev)
      ensures this.id == id && holder == Nobody && holders == 0 && claiming == Nobody
    {
      this.id := id;
      holder, holders, claiming := Nobody, 0, Nobody;
    }
  }

  /** `t` finds each device's object by its number; a whole disk's object is its own container. */
  ghost predicate Wired(t: map<Dev, BlockDevice>) {
    forall d :: d in t ==> t[d].id == d && Container(d) in t
  }

  ghost function View(t: map<Dev, BlockDevice>): Devices
    reads t.Values
  {
    map d | d in t :: Bdev(t[d].holder, t[d].holders, t[d].claiming)
  }

  ghost predicate Pair(t: map<Dev, BlockDevice>, bdev: BlockDevice, whole: BlockDevice) {
    && Wired(t)
    && bdev.id in t && t[bdev.id] == bdev
    && t[Container(bdev.id)] == whole
  }

  method BdMayClaim(ghost t: map<Dev, BlockDevice>, bdev: BlockDevice, whole: BlockDevice, who: nat)
    returns (yes: bool)
    requires Pair(t, bdev, whole)
    ensures yes == MayClaim(View(t), Claim(bdev.id, who))
  {
    if bdev.holder == By(who) {
      yes := true;
    } else if bdev.holder != Nobody {
      yes := false;
    } else if whole == bdev {
      yes := true;
    } else if whole.holder == Marker {
      yes := true;
    } else if whole.holder != Nobody {
      yes := false;
    } else {
      yes := true;
    }
  }

  method StartClaiming(ghost t: map<Dev, BlockDevice>, bdev: BlockDevice, whole: BlockDevice, who: nat)
    returns (r: StartResult)
    requires Pair(t, bdev, whole)
    modifies whole
    ensures r == Start(old(View(t)), Claim(bdev.id, who))
    ensures View(t) == if r == Granted then Reserved(old(View(t)), Claim(bdev.id, who))
                       else old(View(t))
  {
    var may := BdMayClaim(t, bdev, whole, who);
    if !may {
      return Busy;
    }
    if whole.claiming != Nobody {
      return Wait;
    }
    whole.claiming := By(who);
    r := Granted;
    assert View(t) == Reserved(old(View(t)), Claim(bdev.id, who));
  }

  /** The four assignments of a successful open. */
  method Record(ghost t: map<Dev, BlockDevice>, bdev: BlockDevice, whole: BlockDevice, who: nat)
    requires Pair(t, bdev, whole)
    modifies bdev, whole
    ensures View(t) == Recorded(old(View(t)), Claim(bdev.id, who))
  {
    whole.holders := whole.holders + 1;
    whole.holder := Marker;
    bdev.holders := bdev.holders + 1;
    bdev.holder := By(who);
  }

  /** The locked tail of blkdev_get after the open; `bug` when a BUG_ON would fire. */
  method FinishClaiming(ghost t: map<Dev, BlockDevice>, bdev: BlockDevice, whole: BlockDevice,
                        who: nat, success: bool)
    returns (bug: bool)
    requires Pair(t, bdev, whole)
    modifies bdev, whole
    ensures var c := Claim(bdev.id, who);
            bug <==> || (success && !MayClaim(old(View(t)), c))
                     || old(View(t))[Container(c.dev)].claiming != By(who)
    ensures var c := Claim(bdev.id, who);
            !bug ==> View(t) == Unreserved(if success then Recorded(old(View(t)), c)
                                           else old(View(t)), c)
  {
    if success {
      var may := BdMayClaim(t, bdev, whole, who);
      if !may {
        return true;
      }
      Record(t, bdev, whole, who);
    }
    assert whole.claiming == View(t)[Container(bdev.id)].claiming;
    if whole.claiming != By(who) {
      return true;
    }
    whole.claiming := Nobody;
    bug := false;
  }

  method Decrement(ghost t: map<Dev, BlockDevice>, bdev: BlockDevice) returns (warned: bool)
    requires Wired(t) && bdev.id in t && t[bdev.id] == bdev
    modifies bdev
    ensures View(t) == Decremented(old(View(t)), bdev.id)
    ensures warned <==> View(t)[bdev.id].holders < 0
  {
    bdev.holders := bdev.holders - 1;
    warned := bdev.holders < 0;
  }

  method ClearIfFree(ghost t: map<Dev, BlockDevice>, bdev: BlockDevice)
    requires Wired(t) && bdev.id in t && t[bdev.id] == bdev
    modifies bdev
    ensures View(t) == ClearedIfFree(old(View(t)), bdev.id)
  {
    if bdev.holders == 0 {
      bdev.holder := Nobody;
    }
  }

  /** The claim part of blkdev_put; `warned` when a counter would go below zero. */
  method PutClaim(ghost t: map<Dev, BlockDevice>, bdev: BlockDevice, contains: BlockDevice)
    returns (warned: bool)
    requires Pair(t, bdev, contains)
    modifies bdev, contains
    ensures var d := bdev.id;
            var drop := if d == Container(d) then 2 else 1;
            warned <==> old(View(t))[d].holders < drop || old(View(t))[Container(d)].holders < drop
    ensures View(t) == Dropped(old(View(t)), bdev.id)
  {
    var first := Decrement(t, bdev);
    var second := Decrement(t, contains);
    warned := first || second;
    ClearIfFree(t, bdev);
    ClearIfFree(t, contains);
  }
}
