/**
 * Re-keying held register snapshots from profile to device, after
 * `migrateAutomationState` and `adoptedKey` of packages/db/src/automation-state.ts.
 */
module AutomationState {
  import opened Wrappers
  import opened Database

  datatype Value = Number(n: real) | Text(s: string)

  datatype Snapshot = Snapshot(previousValue: Value, capturedAt: string)

  /** What is held, by key. */
  type State = map<string, Snapshot>

  datatype Binding = Binding(deviceId: string, profileId: string)

  datatype Migration = Migration(state: State, changed: bool, orphans: seq<string>)

  // ----- the key an entry moves to ------------------------------------------------------

  function IndexOf(s: string, c: char): (i: Option<nat>)
    ensures i.None? <==> c !in s
    ensures i.Some? ==> i.value < |s| && s[i.value] == c && forall k :: 0 <= k < i.value ==> s[k] != c
  {
    if s == "" then None
    else if s[0] == c then Some(0)
    else
      match IndexOf(s[1..], c)
      case None => None
      case Some(i) => Some(i + 1)
  }

  function DeviceIds(bindings: seq<Binding>): set<string> { set b | b in bindings :: b.deviceId }

  /** The devices that name the profile, once for each binding. */
  function Owners(bindings: seq<Binding>, profile: string): seq<string> {
    if bindings == [] then []
    else
      var before, b := Owners(bindings[..|bindings| - 1], profile), bindings[|bindings| - 1];
      if b.profileId == profile then before + [b.deviceId] else before
  }

  /** Where the key belongs, or nowhere when no single device can claim it. */
  function AdoptedKey(key: string, bindings: seq<Binding>): Option<string> {
    match IndexOf(key, ':')
    case None => None
    case Some(cut) =>
      var namespace := key[..cut];
      if namespace in DeviceIds(bindings) then Some(key)
      else
        var owners := Owners(bindings, namespace);
        if |owners| == 1 then Some(owners[0] + key[cut..]) else None
  }

  /** The entry cannot move: nobody adopts it, or its device already holds that slot. */
  predicate Stuck(key: string, state: State, bindings: seq<Binding>) {
    var adopted := AdoptedKey(key, bindings);
    adopted.None? || (adopted.value != key && adopted.value in state)
  }

  function NewKey(key: string, state: State, bindings: seq<Binding>): string {
    if Stuck(key, state, bindings) then key else AdoptedKey(key, bindings).value
  }

  /** The entries as they are written, one after the other in this order. */
  function Rekeyed(order: seq<string>, state: State, bindings: seq<Binding>): State
    requires forall k :: k in order ==> k in state
  {
    if order == [] then map[]
    else
      var key := order[|order| - 1];
      Rekeyed(order[..|order| - 1], state, bindings)[NewKey(key, state, bindings) := state[key]]
  }

  function StuckKeys(order: seq<string>, state: State, bindings: seq<Binding>): seq<string> {
    if order == [] then []
    else
      var before, key := StuckKeys(order[..|order| - 1], state, bindings), order[|order| - 1];
      if Stuck(key, state, bindings) then before + [key] else before
  }

  predicate AnyMoves(order: seq<string>, state: State, bindings: seq<Binding>) {
    exists i :: 0 <= i < |order| && NewKey(order[i], state, bindings) != order[i]
  }

  /** `order` is the order in which the stored object lists its keys. */
  ghost predicate Lists(order: seq<string>, state: State) {
    Distinct(order) && forall k :: k in order <==> k in state
  }

  method MigrateAutomationState(state: State, order: seq<string>, bindings: seq<Binding>) returns (out: Migration)
    requires Lists(order, state)
    ensures out.changed <==> AnyMoves(order, state, bindings)
    ensures out.state == if out.changed then Rekeyed(order, state, bindings) else state
    ensures out.orphans == StuckKeys(order, state, bindings)
  {
    hide AdoptedKey, AnyMoves;
    var next: State := map[];
    var orphans: seq<string> := [];
    var changed := false;
    NothingMoves(order, state, bindings);
    for i := 0 to |order|
      invariant next == Rekeyed(order[..i], state, bindings)
      invariant orphans == StuckKeys(order[..i], state, bindings)
      invariant changed <==> AnyMoves(order[..i], state, bindings)
    {
      var key := order[i];
      assert order[..i + 1][..i] == order[..i];
      MovesSnoc(order[..i + 1], state, bindings);
      var adopted := AdoptedKey(key, bindings);
      if adopted.None? || (adopted.value != key && adopted.value in state) {
        next := next[key := state[key]];
        orphans := orphans + [key];
      } else {
        next := next[adopted.value := state[key]];
        changed := changed || adopted.value != key;
      }
    }
    assert order[..|order|] == order;
    out := Migration(if changed then next else state, changed, orphans);
  }

  lemma NothingMoves(order: seq<string>, state: State, bindings: seq<Binding>)
    ensures !AnyMoves(order[..0], state, bindings)
  {
  }

  lemma MovesSnoc(order: seq<string>, state: State, bindings: seq<Binding>)
    requires order != []
    ensures var before, last := order[..|order| - 1], order[|order| - 1];
            AnyMoves(order, state, bindings)
            <==> AnyMoves(before, state, bindings) || NewKey(last, state, bindings) != last
  {
    hide NewKey;
    var before := order[..|order| - 1];
    if AnyMoves(before, state, bindings) {
      var i :| 0 <= i < |before| && NewKey(before[i], state, bindings) != before[i];
      assert order[i] == before[i];
    }
    if AnyMoves(order, state, bindings) {
      var i :| 0 <= i < |order| && NewKey(order[i], state, bindings) != order[i];
      if i < |before| { assert before[i] == order[i]; }
    }
  }

  // ----- which bindings lose nothing ------------------------------------------------------

  /** Device ids hold no colon. */
  predicate PlainIds(bindings: seq<Binding>) { forall b :: b in bindings ==> ':' !in b.deviceId }

  /** Nothing else names the profile of this binding: it can be adopted from. */
  predicate Alone(bindings: seq<Binding>, i: nat)
    requires i < |bindings|
  {
    && ':' !in bindings[i].profileId
    && (forall k :: 0 <= k < |bindings| ==> bindings[k].deviceId != bindings[i].profileId)
    && (forall k :: 0 <= k < |bindings| && k != i ==> bindings[k].profileId != bindings[i].profileId)
  }

  /** Two old namespaces never lead to one device. */
  predicate SoleOwnersDiffer(bindings: seq<Binding>) {
    forall i, j :: 0 <= i < j < |bindings| && Alone(bindings, i) && Alone(bindings, j) ==>
      bindings[i].deviceId != bindings[j].deviceId
  }

  predicate Names(bindings: seq<Binding>, i: int, profile: string) {
    0 <= i < |bindings| && bindings[i].profileId == profile
  }

  /** How many owners there are, by the bindings that name the profile. */
  lemma {:induction false} OwnersAre(bindings: seq<Binding>, profile: string)
    ensures Owners(bindings, profile) == [] <==> forall i :: !Names(bindings, i, profile)
    ensures forall i, j :: i < j && Names(bindings, i, profile) && Names(bindings, j, profile) ==>
              |Owners(bindings, profile)| > 1
    ensures forall i :: Names(bindings, i, profile) && (forall j :: Names(bindings, j, profile) ==> j == i) ==>
              Owners(bindings, profile) == [bindings[i].deviceId]
  {
    if bindings != [] {
      var before, n := bindings[..|bindings| - 1], |bindings| - 1;
      OwnersAre(before, profile);
      assert forall i :: Names(before, i, profile) <==> i < n && Names(bindings, i, profile);
      forall i | Names(bindings, i, profile) && forall j :: Names(bindings, j, profile) ==> j == i
        ensures Owners(bindings, profile) == [bindings[i].deviceId]
      {
        if i < n {
          assert !Names(bindings, n, profile) && Names(before, i, profile);
          assert forall j :: Names(before, j, profile) ==> j == i;
        } else {
          assert forall j :: !Names(before, j, profile);
        }
      }
    }
  }

  /** A sole owner is a binding that stands alone. */
  lemma SoleOwner(bindings: seq<Binding>, profile: string) returns (i: int)
    requires |Owners(bindings, profile)| == 1 && ':' !in profile && profile !in DeviceIds(bindings)
    ensures Names(bindings, i, profile) && Alone(bindings, i) && Owners(bindings, profile) == [bindings[i].deviceId]
  {
    OwnersAre(bindings, profile);
    i :| Names(bindings, i, profile);
    forall k | Names(bindings, k, profile) ensures k == i {
      assert k < i ==> |Owners(bindings, profile)| > 1;
      assert i < k ==> |Owners(bindings, profile)| > 1;
    }
    forall k | 0 <= k < |bindings| ensures bindings[k].deviceId != profile {
      assert bindings[k] in bindings;
    }
    forall k | 0 <= k < |bindings| && k != i ensures bindings[k].profileId != profile {
      assert !Names(bindings, k, profile);
    }
  }

  lemma SoleOwnersApart(bindings: seq<Binding>, p: string, q: string)
    requires SoleOwnersDiffer(bindings) && p != q && ':' !in p && ':' !in q
    requires p !in DeviceIds(bindings) && q !in DeviceIds(bindings)
    requires |Owners(bindings, p)| == 1 && |Owners(bindings, q)| == 1
    ensures Owners(bindings, p)[0] != Owners(bindings, q)[0]
  {
    hide Owners, DeviceIds;
    var i := SoleOwner(bindings, p);
    var j := SoleOwner(bindings, q);
    assert if i < j then bindings[i].deviceId != bindings[j].deviceId else bindings[j].deviceId != bindings[i].deviceId;
  }

  lemma AloneIsSole(bindings: seq<Binding>, i: nat)
    requires i < |bindings| && Alone(bindings, i)
    ensures Owners(bindings, bindings[i].profileId) == [bindings[i].deviceId]
    ensures bindings[i].profileId !in DeviceIds(bindings)
  {
    OwnersAre(bindings, bindings[i].profileId);
    assert Names(bindings, i, bindings[i].profileId);
  }

  lemma {:induction false} OwnersAreDevices(bindings: seq<Binding>, profile: string)
    ensures forall d :: d in Owners(bindings, profile) ==> Binding(d, profile) in bindings
  {
    if bindings != [] { OwnersAreDevices(bindings[..|bindings| - 1], profile); }
  }

  lemma OwnerIsDevice(bindings: seq<Binding>, profile: string)
    requires Owners(bindings, profile) != []
    ensures Owners(bindings, profile)[0] in DeviceIds(bindings)
  {
    OwnersAreDevices(bindings, profile);
    assert Binding(Owners(bindings, profile)[0], profile) in bindings;
  }

  lemma CutsAtColon(namespace: string, rest: string)
    requires ':' !in namespace && rest != "" && rest[0] == ':'
    ensures IndexOf(namespace + rest, ':') == Some(|namespace|)
    ensures (namespace + rest)[..|namespace|] == namespace && (namespace + rest)[|namespace|..] == rest
  {
    var key, n := namespace + rest, |namespace|;
    assert key[n] == ':';
    assert forall k :: 0 <= k < n ==> key[k] == namespace[k] && namespace[k] in namespace;
  }

  lemma SplitUnique(a: string, b: string, x: string, y: string)
    requires ':' !in a && ':' !in b && x != "" && y != "" && x[0] == ':' && y[0] == ':' && a + x == b + y
    ensures a == b && x == y
  {
    CutsAtColon(a, x);
    CutsAtColon(b, y);
  }

  /** An entry that moves goes from a profile's namespace into its sole owner's. */
  lemma Moved(key: string, state: State, bindings: seq<Binding>)
    requires NewKey(key, state, bindings) != key
    ensures IndexOf(key, ':').Some?
    ensures var cut := IndexOf(key, ':').value;
            && key[..cut] !in DeviceIds(bindings) && |Owners(bindings, key[..cut])| == 1
            && NewKey(key, state, bindings) == Owners(bindings, key[..cut])[0] + key[cut..]
            && NewKey(key, state, bindings) !in state
  {
  }

  /** No two entries end up under one key. */
  lemma NewKeysDiffer(j: string, k: string, state: State, bindings: seq<Binding>)
    requires PlainIds(bindings) && SoleOwnersDiffer(bindings) && j in state && k in state && j != k
    ensures NewKey(j, state, bindings) != NewKey(k, state, bindings)
  {
    hide NewKey, Stuck, AdoptedKey, Owners, SoleOwnersDiffer, PlainIds, DeviceIds, IndexOf;
    if NewKey(j, state, bindings) != j { Moved(j, state, bindings); }
    if NewKey(k, state, bindings) != k { Moved(k, state, bindings); }
    if NewKey(j, state, bindings) != j && NewKey(k, state, bindings) != k { BothMoved(j, k, bindings); }
  }

  lemma BothMoved(j: string, k: string, bindings: seq<Binding>)
    requires PlainIds(bindings) && SoleOwnersDiffer(bindings) && j != k
    requires IndexOf(j, ':').Some? && IndexOf(k, ':').Some?
    requires var p, q := j[..IndexOf(j, ':').value], k[..IndexOf(k, ':').value];
             && p !in DeviceIds(bindings) && q !in DeviceIds(bindings)
             && |Owners(bindings, p)| == 1 && |Owners(bindings, q)| == 1
    ensures Owners(bindings, j[..IndexOf(j, ':').value])[0] + j[IndexOf(j, ':').value..]
         != Owners(bindings, k[..IndexOf(k, ':').value])[0] + k[IndexOf(k, ':').value..]
  {
    hide IndexOf, Owners, DeviceIds, PlainIds;
    var cut, cot := IndexOf(j, ':').value, IndexOf(k, ':').value;
    var p, q := j[..cut], k[..cot];
    OwnersArePlain(bindings, p);
    OwnersArePlain(bindings, q);
    assert ':' !in p && ':' !in q;
    if p != q { SoleOwnersApart(bindings, p, q); }
    SlotsDiffer(p, q, j[cut..], k[cot..], Owners(bindings, p)[0], Owners(bindings, q)[0], j, k);
  }

  lemma SlotsDiffer(p: string, q: string, x: string, y: string, a: string, b: string, j: string, k: string)
    requires p != q ==> a != b
    requires ':' !in a && ':' !in b && x != "" && y != "" && x[0] == ':' && y[0] == ':'
    requires j == p + x && k == q + y && j != k
    ensures a + x != b + y
  {
    if a + x == b + y { SplitUnique(a, b, x, y); }
  }

  lemma OwnersArePlain(bindings: seq<Binding>, profile: string)
    requires PlainIds(bindings) && Owners(bindings, profile) != []
    ensures ':' !in Owners(bindings, profile)[0]
  {
    OwnersAreDevices(bindings, profile);
  }

  /** Every entry of every stored blob survives, each under a key of its own. */
  ghost predicate Lossless(bindings: seq<Binding>) {
    forall state: State, j: string, k: string :: j in state && k in state && j != k ==>
      NewKey(j, state, bindings) != NewKey(k, state, bindings)
  }

  /** Two profiles with one owner collide as soon as both hold the same slot. */
  lemma SharedOwnerCollides(bindings: seq<Binding>, p: string, q: string, snapshot: Snapshot)
    requires PlainIds(bindings) && p != q && ':' !in p && ':' !in q && p !in DeviceIds(bindings)
         && q !in DeviceIds(bindings)
    requires |Owners(bindings, p)| == 1 && |Owners(bindings, q)| == 1
         && Owners(bindings, p)[0] == Owners(bindings, q)[0]
    ensures var state := map[p + ":x" := snapshot, q + ":x" := snapshot];
            && p + ":x" != q + ":x"
            && NewKey(p + ":x", state, bindings) == NewKey(q + ":x", state, bindings) == Owners(bindings, p)[0] + ":x"
  {
    var d := Owners(bindings, p)[0];
    var state := map[p + ":x" := snapshot, q + ":x" := snapshot];
    OwnersArePlain(bindings, p);
    OwnerIsDevice(bindings, p);
    CutsAtColon(p, ":x");
    CutsAtColon(q, ":x");
    DifferBefore(p, q, ":x");
    DifferBefore(d, p, ":x");
    DifferBefore(d, q, ":x");
    hide IndexOf, Owners, DeviceIds;
    assert d + ":x" !in state;
  }

  lemma DifferBefore(a: string, b: string, x: string)
    requires a != b
    ensures a + x != b + x
  {
    assert |a| == |b| ==> (a + x)[..|a|] == a && (b + x)[..|b|] == b;
  }

  lemma DifferentOwnersLoseNothing(bindings: seq<Binding>)
    requires PlainIds(bindings) && SoleOwnersDiffer(bindings)
    ensures Lossless(bindings)
  {
    hide NewKey, PlainIds, SoleOwnersDiffer;
    forall state: State, j: string, k: string | j in state && k in state && j != k
      ensures NewKey(j, state, bindings) != NewKey(k, state, bindings)
    {
      NewKeysDiffer(j, k, state, bindings);
    }
  }

  lemma SharedOwnersLoseOne(bindings: seq<Binding>, p: string, q: string)
    requires PlainIds(bindings) && p != q && ':' !in p && ':' !in q && p !in DeviceIds(bindings)
         && q !in DeviceIds(bindings)
    requires |Owners(bindings, p)| == 1 && |Owners(bindings, q)| == 1
         && Owners(bindings, p)[0] == Owners(bindings, q)[0]
    ensures !Lossless(bindings)
  {
    hide NewKey, Owners, DeviceIds, PlainIds;
    var snapshot := Snapshot(Number(0.0), "");
    SharedOwnerCollides(bindings, p, q, snapshot);
    var state: State := map[p + ":x" := snapshot, q + ":x" := snapshot];
    assert p + ":x" in state && q + ":x" in state;
  }

  /** Re-keying loses nothing, for every blob, exactly when no two old namespaces lead to one device. */
  lemma LosslessExactly(bindings: seq<Binding>)
    requires PlainIds(bindings)
    ensures Lossless(bindings) <==> SoleOwnersDiffer(bindings)
  {
    hide Lossless, PlainIds, Owners, DeviceIds;
    if SoleOwnersDiffer(bindings) {
      DifferentOwnersLoseNothing(bindings);
    } else {
      var i, j :| 0 <= i < j < |bindings| && Alone(bindings, i) && Alone(bindings, j)
                  && bindings[i].deviceId == bindings[j].deviceId;
      AloneIsSole(bindings, i);
      AloneIsSole(bindings, j);
      SharedOwnersLoseOne(bindings, bindings[i].profileId, bindings[j].profileId);
    }
  }

  /** A plant that lists every device once is of that kind. */
  lemma EachDeviceOnce(bindings: seq<Binding>)
    requires forall i, j :: 0 <= i < j < |bindings| ==> bindings[i].deviceId != bindings[j].deviceId
    ensures SoleOwnersDiffer(bindings)
  {
  }

  // ----- what becomes of the entries --------------------------------------------------------

  /** Some entry is written under `n`. */
  predicate CameFrom(n: string, order: seq<string>, state: State, bindings: seq<Binding>) {
    exists i :: 0 <= i < |order| && NewKey(order[i], state, bindings) == n
  }

  lemma {:induction false} RekeyedKeys(order: seq<string>, state: State, bindings: seq<Binding>)
    requires forall k :: k in order ==> k in state
    ensures forall n :: n in Rekeyed(order, state, bindings) <==> CameFrom(n, order, state, bindings)
  {
    if order != [] {
      hide NewKey;
      var before, last := order[..|order| - 1], order[|order| - 1];
      RekeyedKeys(before, state, bindings);
      forall n ensures CameFrom(n, order, state, bindings)
          <==> CameFrom(n, before, state, bindings) || n == NewKey(last, state, bindings) {
        CameFromSnoc(n, order, state, bindings);
      }
    }
  }

  lemma CameFromSnoc(n: string, order: seq<string>, state: State, bindings: seq<Binding>)
    requires order != []
    ensures CameFrom(n, order, state, bindings)
       <==> CameFrom(n, order[..|order| - 1], state, bindings) || n == NewKey(order[|order| - 1], state, bindings)
  {
    hide NewKey;
    var before := order[..|order| - 1];
    if CameFrom(n, before, state, bindings) {
      var i :| 0 <= i < |before| && NewKey(before[i], state, bindings) == n;
      assert order[i] == before[i];
    }
    if CameFrom(n, order, state, bindings) {
      var i :| 0 <= i < |order| && NewKey(order[i], state, bindings) == n;
      if i < |before| { assert before[i] == order[i]; }
    }
  }

  lemma {:induction false} RekeyedEntries(order: seq<string>, state: State, bindings: seq<Binding>)
    requires PlainIds(bindings) && SoleOwnersDiffer(bindings)
    requires Distinct(order) && forall k :: k in order ==> k in state
    ensures forall k :: k in order ==>
              NewKey(k, state, bindings) in Rekeyed(order, state, bindings)
              && Rekeyed(order, state, bindings)[NewKey(k, state, bindings)] == state[k]
  {
    if order != [] {
      hide NewKey, PlainIds, SoleOwnersDiffer;
      var before, last := order[..|order| - 1], order[|order| - 1];
      assert order == before + [last];
      assert Distinct(before) && last !in before by { assert forall i :: 0 <= i < |before| ==> before[i] == order[i]; }
      RekeyedEntries(before, state, bindings);
      forall k | k in before ensures NewKey(k, state, bindings) != NewKey(last, state, bindings) {
        NewKeysDiffer(k, last, state, bindings);
      }
    }
  }

  lemma {:induction false} StuckAre(order: seq<string>, state: State, bindings: seq<Binding>, key: string)
    ensures key in StuckKeys(order, state, bindings) <==> key in order && Stuck(key, state, bindings)
  {
    if order != [] {
      assert order == order[..|order| - 1] + [order[|order| - 1]];
      StuckAre(order[..|order| - 1], state, bindings, key);
    }
  }

  /** The stored blob after a pass. */
  function Migrated(order: seq<string>, state: State, bindings: seq<Binding>): State
    requires forall k :: k in order ==> k in state
  {
    if AnyMoves(order, state, bindings) then Rekeyed(order, state, bindings) else state
  }

  lemma Unmoved(order: seq<string>, state: State, bindings: seq<Binding>, k: string)
    requires !AnyMoves(order, state, bindings) && k in order
    ensures NewKey(k, state, bindings) == k
  {
    hide NewKey;
    var i :| 0 <= i < |order| && order[i] == k;
  }

  /** No entry is written over one that was there: an entry that stays keeps its snapshot. */
  lemma {:induction false} StaysUntouched(order: seq<string>, state: State, bindings: seq<Binding>, k: string)
    requires Distinct(order) && forall j :: j in order ==> j in state
    requires k in order && NewKey(k, state, bindings) == k
    ensures k in Rekeyed(order, state, bindings) && Rekeyed(order, state, bindings)[k] == state[k]
  {
    hide NewKey;
    var before, last := order[..|order| - 1], order[|order| - 1];
    assert order == before + [last];
    assert Distinct(before) && last !in before by { assert forall i :: 0 <= i < |before| ==> before[i] == order[i]; }
    if k != last {
      StaysUntouched(before, state, bindings, k);
      if NewKey(last, state, bindings) != last { Moved(last, state, bindings); }
    }
  }

  /** The key is of an old namespace: the text in front of its first colon is no device id. */
  predicate OldKey(key: string, cut: nat, bindings: seq<Binding>) {
    && cut < |key| && key[cut] == ':' && ':' !in key[..cut]
    && forall i :: 0 <= i < |bindings| ==> bindings[i].deviceId != key[..cut]
  }

  lemma OldKeyCuts(key: string, cut: nat, bindings: seq<Binding>)
    requires OldKey(key, cut, bindings)
    ensures IndexOf(key, ':') == Some(cut) && key[..cut] !in DeviceIds(bindings)
  {
    assert key == key[..cut] + key[cut..];
    CutsAtColon(key[..cut], key[cut..]);
  }

  /** The blob has the entry where it was, and the pass reports it. */
  predicate LeftAndReported(order: seq<string>, state: State, bindings: seq<Binding>, key: string)
    requires key in state && forall k :: k in order ==> k in state
  {
    var next := Migrated(order, state, bindings);
    key in StuckKeys(order, state, bindings) && key in next && next[key] == state[key]
  }

  lemma StuckIsLeft(order: seq<string>, state: State, bindings: seq<Binding>, key: string)
    requires Lists(order, state) && key in state && Stuck(key, state, bindings)
    ensures LeftAndReported(order, state, bindings, key)
  {
    StuckAre(order, state, bindings, key);
    StaysUntouched(order, state, bindings, key);
  }

  /**
   * Adoption is never a guess: an entry whose namespace is named by no binding, or by
   * more than one, is reported and stays where it is, snapshot and all.
   */
  lemma AmbiguousIsLeft(order: seq<string>, state: State, bindings: seq<Binding>, key: string, cut: nat)
    requires Lists(order, state) && key in state && OldKey(key, cut, bindings)
    requires (forall i :: !Names(bindings, i, key[..cut]))
          || exists i, j :: i < j && Names(bindings, i, key[..cut]) && Names(bindings, j, key[..cut])
    ensures LeftAndReported(order, state, bindings, key)
  {
    OldKeyCuts(key, cut, bindings);
    OwnersAre(bindings, key[..cut]);
    hide Owners, IndexOf, DeviceIds;
    StuckIsLeft(order, state, bindings, key);
  }

  /**
   * An entry whose namespace exactly one binding names is adopted by its device, unless
   * that device already holds the slot; then it is left and reported.
   */
  lemma SoleNamedAdopts(order: seq<string>, state: State, bindings: seq<Binding>, key: string, cut: nat, i: int)
    requires Lists(order, state) && key in state && OldKey(key, cut, bindings)
    requires Names(bindings, i, key[..cut]) && forall j :: Names(bindings, j, key[..cut]) ==> j == i
    ensures var next, adopted := Migrated(order, state, bindings), bindings[i].deviceId + key[cut..];
            if adopted in state then LeftAndReported(order, state, bindings, key)
            else key !in StuckKeys(order, state, bindings) && key !in next && adopted in next
                 && (PlainIds(bindings) && SoleOwnersDiffer(bindings) ==> next[adopted] == state[key])
  {
    OldKeyCuts(key, cut, bindings);
    OwnersAre(bindings, key[..cut]);
    NotItsOwn(bindings, key, cut, i);
    hide Owners, IndexOf, DeviceIds, PlainIds, SoleOwnersDiffer;
    if bindings[i].deviceId + key[cut..] in state {
      StuckIsLeft(order, state, bindings, key);
    } else {
      StuckAre(order, state, bindings, key);
      hide AdoptedKey, Stuck;
      Adopted(order, state, bindings, key);
    }
  }

  lemma NotItsOwn(bindings: seq<Binding>, key: string, cut: nat, i: nat)
    requires OldKey(key, cut, bindings) && i < |bindings|
    ensures bindings[i].deviceId + key[cut..] != key
  {
    var d := bindings[i].deviceId;
    assert |d| == cut ==> (d + key[cut..])[..cut] == d;
  }

  lemma Adopted(order: seq<string>, state: State, bindings: seq<Binding>, key: string)
    requires Lists(order, state) && key in state && NewKey(key, state, bindings) != key
    ensures var next := Migrated(order, state, bindings);
            && key !in next && NewKey(key, state, bindings) in next
            && (PlainIds(bindings) && SoleOwnersDiffer(bindings) ==>
                  next[NewKey(key, state, bindings)] == state[key])
  {
    hide NewKey, PlainIds, SoleOwnersDiffer;
    var k :| 0 <= k < |order| && order[k] == key;
    assert AnyMoves(order, state, bindings);
    RekeyedKeys(order, state, bindings);
    assert CameFrom(NewKey(key, state, bindings), order, state, bindings);
    if CameFrom(key, order, state, bindings) {
      var j :| 0 <= j < |order| && NewKey(order[j], state, bindings) == key;
      if order[j] != key { Moved(order[j], state, bindings); }
    }
    if PlainIds(bindings) && SoleOwnersDiffer(bindings) { RekeyedEntries(order, state, bindings); }
  }

  /** An entry that is a device's already stays as it is and is no orphan. */
  lemma DeviceEntryStays(order: seq<string>, state: State, bindings: seq<Binding>, key: string, cut: nat, i: nat)
    requires Lists(order, state) && key in state
    requires cut < |key| && key[cut] == ':' && ':' !in key[..cut]
    requires i < |bindings| && bindings[i].deviceId == key[..cut]
    ensures var next := Migrated(order, state, bindings);
            key !in StuckKeys(order, state, bindings) && key in next && next[key] == state[key]
  {
    assert key == key[..cut] + key[cut..];
    CutsAtColon(key[..cut], key[cut..]);
    assert bindings[i] in bindings;
    hide IndexOf, Owners;
    StuckAre(order, state, bindings, key);
    StaysUntouched(order, state, bindings, key);
  }

  /** A key without a namespace is nobody's. */
  lemma NoNamespaceIsLeft(order: seq<string>, state: State, bindings: seq<Binding>, key: string)
    requires Lists(order, state) && key in state && ':' !in key
    ensures LeftAndReported(order, state, bindings, key)
  {
    StuckIsLeft(order, state, bindings, key);
  }

  /** The pass says that it has changed the blob exactly when it has. */
  lemma ChangedExactly(order: seq<string>, state: State, bindings: seq<Binding>)
    requires Lists(order, state)
    ensures AnyMoves(order, state, bindings) <==> Migrated(order, state, bindings) != state
  {
    hide NewKey;
    if i :| 0 <= i < |order| && NewKey(order[i], state, bindings) != order[i] {
      assert order[i] in state;
      Adopted(order, state, bindings, order[i]);
    }
  }

  /**
   * Every snapshot survives, under its own key or its sole owner's, and nothing else
   * is there.
   */
  lemma EverySnapshotSurvives(order: seq<string>, state: State, bindings: seq<Binding>)
    requires PlainIds(bindings) && SoleOwnersDiffer(bindings) && Lists(order, state)
    ensures forall k :: k in state ==>
              NewKey(k, state, bindings) in Migrated(order, state, bindings)
              && Migrated(order, state, bindings)[NewKey(k, state, bindings)] == state[k]
    ensures forall n :: n in Migrated(order, state, bindings) <==> CameFrom(n, order, state, bindings)
  {
    hide NewKey, PlainIds, SoleOwnersDiffer;
    if AnyMoves(order, state, bindings) {
      RekeyedEntries(order, state, bindings);
      RekeyedKeys(order, state, bindings);
    } else {
      forall k | k in state ensures NewKey(k, state, bindings) == k { Unmoved(order, state, bindings, k); }
      forall n ensures n in state <==> CameFrom(n, order, state, bindings) {
        if n in state { var i :| 0 <= i < |order| && order[i] == n; }
      }
    }
  }

  /**
   * One pass, whatever the order in which the stored object lists its keys: every
   * snapshot survives exactly once, an entry that is already a device's is never
   * overwritten, and the orphans are left where they were.
   */
  lemma NothingIsLost(order: seq<string>, state: State, bindings: seq<Binding>, j: string, k: string)
    requires PlainIds(bindings) && SoleOwnersDiffer(bindings) && Lists(order, state)
    requires j in state && k in state
    ensures var next := Migrated(order, state, bindings);
            && NewKey(k, state, bindings) in next && next[NewKey(k, state, bindings)] == state[k]
            && (j != k ==> NewKey(j, state, bindings) != NewKey(k, state, bindings))
            && (AdoptedKey(k, bindings) == Some(k) || k in StuckKeys(order, state, bindings)
                ==> k in next && next[k] == state[k])
            && |next| == |state|
  {
    EverySnapshotSurvives(order, state, bindings);
    if j != k { NewKeysDiffer(j, k, state, bindings); }
    StuckAre(order, state, bindings, k);
    hide AdoptedKey;
    assert AdoptedKey(k, bindings) == Some(k) || k in StuckKeys(order, state, bindings) ==>
        NewKey(k, state, bindings) == k;
    SameSize(order, state, bindings);
  }

  lemma {:induction false} SizeIsCount(order: seq<string>, state: State, bindings: seq<Binding>)
    requires PlainIds(bindings) && SoleOwnersDiffer(bindings)
    requires Distinct(order) && forall k :: k in order ==> k in state
    ensures |Rekeyed(order, state, bindings)| == |order|
  {
    if order != [] {
      hide NewKey, PlainIds, SoleOwnersDiffer;
      var before, last := order[..|order| - 1], order[|order| - 1];
      assert order == before + [last];
      assert Distinct(before) && last !in before by { assert forall i :: 0 <= i < |before| ==> before[i] == order[i]; }
      SizeIsCount(before, state, bindings);
      RekeyedKeys(before, state, bindings);
      forall i | 0 <= i < |before| ensures NewKey(before[i], state, bindings) != NewKey(last, state, bindings) {
        assert before[i] in before;
        NewKeysDiffer(before[i], last, state, bindings);
      }
      assert NewKey(last, state, bindings) !in Rekeyed(before, state, bindings);
      AddedKey(Rekeyed(before, state, bindings), NewKey(last, state, bindings), state[last]);
    }
  }

  lemma AddedKey(m: State, k: string, v: Snapshot)
    requires k !in m
    ensures |m[k := v]| == |m| + 1
  {
    assert m[k := v].Keys == m.Keys + {k};
  }

  lemma {:induction false} DistinctSize(order: seq<string>)
    requires Distinct(order)
    ensures |set k | k in order| == |order|
  {
    if order != [] {
      var before, last := order[..|order| - 1], order[|order| - 1];
      assert order == before + [last];
      assert Distinct(before) && last !in before by { assert forall i :: 0 <= i < |before| ==> before[i] == order[i]; }
      DistinctSize(before);
      assert (set k | k in order) == (set k | k in before) + {last};
    }
  }

  lemma SameSize(order: seq<string>, state: State, bindings: seq<Binding>)
    requires PlainIds(bindings) && SoleOwnersDiffer(bindings) && Lists(order, state)
    ensures |Migrated(order, state, bindings)| == |state|
  {
    hide NewKey, PlainIds, SoleOwnersDiffer;
    SizeIsCount(order, state, bindings);
    DistinctSize(order);
    assert state.Keys == set k | k in order;
  }

  /** The order in which the object lists its keys makes no difference. */
  lemma OrderIsIrrelevant(x: seq<string>, y: seq<string>, state: State, bindings: seq<Binding>)
    requires PlainIds(bindings) && SoleOwnersDiffer(bindings) && Lists(x, state) && Lists(y, state)
    ensures Migrated(x, state, bindings) == Migrated(y, state, bindings)
    ensures forall k :: k in StuckKeys(x, state, bindings) <==> k in StuckKeys(y, state, bindings)
  {
    hide NewKey, PlainIds, SoleOwnersDiffer, Migrated, Stuck;
    EverySnapshotSurvives(x, state, bindings);
    EverySnapshotSurvives(y, state, bindings);
    var one, other := Migrated(x, state, bindings), Migrated(y, state, bindings);
    forall n ensures n in one <==> n in other {
      SameSources(n, x, y, state, bindings);
      SameSources(n, y, x, state, bindings);
    }
    forall n | n in one ensures one[n] == other[n] { SameValue(n, x, state, bindings, one, other); }
    SameState(one, other);
    forall k ensures k in StuckKeys(x, state, bindings) <==> k in StuckKeys(y, state, bindings) {
      StuckAre(x, state, bindings, k);
      StuckAre(y, state, bindings, k);
    }
  }

  lemma SameValue(n: string, order: seq<string>, state: State, bindings: seq<Binding>, one: State, other: State)
    requires CameFrom(n, order, state, bindings) && forall k :: k in order ==> k in state
    requires forall k :: k in state ==> NewKey(k, state, bindings) in one && one[NewKey(k, state, bindings)] == state[k]
    requires forall k :: k in state ==>
        NewKey(k, state, bindings) in other && other[NewKey(k, state, bindings)] == state[k]
    ensures n in one && n in other && one[n] == other[n]
  {
    hide NewKey;
    var i :| 0 <= i < |order| && NewKey(order[i], state, bindings) == n;
    assert order[i] in state;
  }

  lemma SameState(one: State, other: State)
    requires (forall n :: n in one <==> n in other) && forall n :: n in one ==> one[n] == other[n]
    ensures one == other
  {
  }

  lemma SameSources(n: string, x: seq<string>, y: seq<string>, state: State, bindings: seq<Binding>)
    requires forall k :: k in x ==> k in y
    ensures CameFrom(n, x, state, bindings) ==> CameFrom(n, y, state, bindings)
  {
    hide NewKey;
    if CameFrom(n, x, state, bindings) {
      var i :| 0 <= i < |x| && NewKey(x[i], state, bindings) == n;
      assert x[i] in y;
      var j :| 0 <= j < |y| && y[j] == x[i];
      assert NewKey(y[j], state, bindings) == n;
    }
  }

  /** An adopted key is in a registered device's namespace. */
  lemma AdoptedIsADevices(k: string, bindings: seq<Binding>)
    requires PlainIds(bindings) && AdoptedKey(k, bindings).Some?
    ensures AdoptedKey(AdoptedKey(k, bindings).value, bindings) == AdoptedKey(k, bindings)
  {
    var cut := IndexOf(k, ':').value;
    if k[..cut] !in DeviceIds(bindings) {
      var owner := Owners(bindings, k[..cut])[0];
      OwnersArePlain(bindings, k[..cut]);
      OwnerIsDevice(bindings, k[..cut]);
      CutsAtColon(owner, k[cut..]);
    }
  }

  /** Wherever an entry ended up, it stays, and it is an orphan if it was one. */
  lemma Settles(k: string, state: State, next: State, bindings: seq<Binding>)
    requires PlainIds(bindings) && k in state
    requires forall j :: j in state ==> NewKey(j, state, bindings) in next
    ensures NewKey(NewKey(k, state, bindings), next, bindings) == NewKey(k, state, bindings)
    ensures Stuck(NewKey(k, state, bindings), next, bindings) <==> Stuck(k, state, bindings)
  {
    if AdoptedKey(k, bindings).Some? {
      AdoptedIsADevices(k, bindings);
      hide AdoptedKey;
      var a := AdoptedKey(k, bindings).value;
      if a in state { assert NewKey(a, state, bindings) == a; }
    }
  }

  /** A second pass moves nothing and reports the same orphans. */
  lemma MigratingIsIdempotent(order: seq<string>, state: State, bindings: seq<Binding>, again: seq<string>)
    requires PlainIds(bindings) && SoleOwnersDiffer(bindings) && Lists(order, state)
    requires Lists(again, Migrated(order, state, bindings))
    ensures !AnyMoves(again, Migrated(order, state, bindings), bindings)
    ensures forall k ::
          k in StuckKeys(again, Migrated(order, state, bindings), bindings) <==> k in StuckKeys(order, state, bindings)
  {
    hide NewKey, PlainIds, SoleOwnersDiffer, Migrated, Stuck;
    var next := Migrated(order, state, bindings);
    EverySnapshotSurvives(order, state, bindings);
    forall n | n in next
      ensures NewKey(n, next, bindings) == n
      ensures Stuck(n, next, bindings) <==> n in state && Stuck(n, state, bindings)
    {
      var i :| 0 <= i < |order| && NewKey(order[i], state, bindings) == n;
      assert order[i] in state;
      Settles(order[i], state, next, bindings);
      OrphansStay(order[i], n, state, bindings);
    }
    forall k ensures k in StuckKeys(again, next, bindings) <==> k in StuckKeys(order, state, bindings) {
      StuckAre(again, next, bindings, k);
      StuckAre(order, state, bindings, k);
      StuckStays(k, state, bindings);
    }
    forall i | 0 <= i < |again| ensures NewKey(again[i], next, bindings) == again[i] { assert again[i] in again; }
  }

  lemma StuckStays(k: string, state: State, bindings: seq<Binding>)
    ensures Stuck(k, state, bindings) ==> NewKey(k, state, bindings) == k
  {
  }

  lemma OrphansStay(k: string, n: string, state: State, bindings: seq<Binding>)
    requires k in state && NewKey(k, state, bindings) == n
    ensures Stuck(k, state, bindings) <==> n in state && Stuck(n, state, bindings)
  {
    StuckStays(k, state, bindings);
    if !Stuck(k, state, bindings) && n in state {
      assert AdoptedKey(k, bindings) == Some(k);
    }
  }

  /** The orphans are listed in the order of the entries. */
  lemma {:induction false} OrphansInOrder(before: seq<string>, after: seq<string>, state: State,
                                          bindings: seq<Binding>)
    ensures StuckKeys(before + after, state, bindings)
         == StuckKeys(before, state, bindings) + StuckKeys(after, state, bindings)
  {
    hide Stuck;
    if after == [] {
      assert before + after == before;
    } else {
      OrphansInOrder(before, after[..|after| - 1], state, bindings);
      assert (before + after)[..|before + after| - 1] == before + after[..|after| - 1];
    }
  }
}
