/**
 * The audit diff as a patch between two states. Values are compared with `eq`, which stands for reflect.DeepEqual: an
 * equivalence except that a value (a NaN, a function) need not equal itself.
 */
module StateDiff {
  import opened Options

  datatype FieldDiff<+V> = FieldDiff(before: V, after: V)

  type Diff<K, +V> = map<K, FieldDiff<V>>

  /** How values are compared, and the nil that also stands for absence. */
  datatype Values<!V> = Values(eq: (V, V) -> bool, nil: V)

  ghost predicate Equality<V(!new)>(vs: Values<V>) {
    && (forall x, y :: vs.eq(x, y) ==> vs.eq(y, x))
    && (forall x, y, z :: vs.eq(x, y) && vs.eq(y, z) ==> vs.eq(x, z))
    && (forall x :: vs.eq(vs.nil, x) <==> x == vs.nil)
  }

  function Get<K, V>(vs: Values<V>, m: map<K, V>, k: K): V {
    if k in m then m[k] else vs.nil
  }

  /** One state has the field and the other has not, or both have it with different values. */
  predicate Differs<K, V>(vs: Values<V>, before: map<K, V>, after: map<K, V>, k: K) {
    if k in before then k !in after || !vs.eq(before[k], after[k]) else k in after
  }

  /** Exactly the fields that differ, each with what it was and what it is. */
  function DiffOf<K, V>(vs: Values<V>, before: map<K, V>, after: map<K, V>): Diff<K, V> {
    map k | k in before.Keys + after.Keys && Differs(vs, before, after, k)
      :: FieldDiff(Get(vs, before, k), Get(vs, after, k))
  }

  /** The part of the diff that concerns some of the fields. */
  ghost function DiffWithin<K, V>(vs: Values<V>, before: map<K, V>, after: map<K, V>, fields: set<K>): Diff<K, V> {
    map k | k in fields && Differs(vs, before, after, k) :: FieldDiff(Get(vs, before, k), Get(vs, after, k))
  }

  lemma OldField<K, V>(vs: Values<V>, before: map<K, V>, after: map<K, V>, fields: set<K>, k: K)
    requires k in before
    ensures var part, next := DiffWithin(vs, before, after, fields), DiffWithin(vs, before, after, fields + {k});
            && (k !in after ==> next == part[k := FieldDiff(before[k], vs.nil)])
            && (k in after && !vs.eq(before[k], after[k]) ==> next == part[k := FieldDiff(before[k], after[k])])
            && (k in after && vs.eq(before[k], after[k]) ==> next == part)
  {
  }

  lemma NewField<K, V>(vs: Values<V>, before: map<K, V>, after: map<K, V>, fields: set<K>, k: K)
    requires k in after && before.Keys <= fields
    ensures var part, next := DiffWithin(vs, before, after, fields), DiffWithin(vs, before, after, fields + {k});
            && (k !in before ==> next == part[k := FieldDiff(vs.nil, after[k])])
            && (k in before ==> next == part)
  {
    if k in before {
      assert k in before.Keys;
      assert fields + {k} == fields;
    }
  }

  /** The two loops, over the fields in any order. */
  method ComputeDiff<K(==), V(==)>(vs: Values<V>, before: map<K, V>, after: map<K, V>) returns (diff: Diff<K, V>)
    ensures forall k :: k in diff <==> if k in before && k in after then !vs.eq(before[k], after[k])
                                       else k in before || k in after
    ensures forall k | k in diff :: diff[k] == FieldDiff(if k in before then before[k] else vs.nil,
                                                         if k in after then after[k] else vs.nil)
    ensures diff == DiffOf(vs, before, after)
  {
    hide DiffWithin, DiffOf;
    diff := map[];
    NoFields(vs, before, after);
    var keys := before.Keys;
    ghost var done: set<K> := {};
    while keys != {}
      invariant done + keys == before.Keys && diff == DiffWithin(vs, before, after, done)
      decreases keys
    {
      var k :| k in keys;
      keys := keys - {k};
      OldField(vs, before, after, done, k);
      done := done + {k};
      if k !in after {
        diff := diff[k := FieldDiff(before[k], vs.nil)];
        continue;
      }
      if !vs.eq(before[k], after[k]) {
        diff := diff[k := FieldDiff(before[k], after[k])];
      }
    }
    keys := after.Keys;
    while keys != {}
      invariant before.Keys <= done && keys <= after.Keys && done + keys == before.Keys + after.Keys
      invariant diff == DiffWithin(vs, before, after, done)
      decreases keys
    {
      var k :| k in keys;
      keys := keys - {k};
      NewField(vs, before, after, done, k);
      done := done + {k};
      if k !in before {
        diff := diff[k := FieldDiff(vs.nil, after[k])];
      }
    }
    assert done == before.Keys + after.Keys;
    AllFields(vs, before, after);
    ExactFields(vs, before, after);
  }

  lemma NoFields<K, V>(vs: Values<V>, before: map<K, V>, after: map<K, V>)
    ensures DiffWithin(vs, before, after, {}) == map[]
  {
  }

  lemma ExactFields<K, V>(vs: Values<V>, before: map<K, V>, after: map<K, V>)
    ensures var diff := DiffOf(vs, before, after);
            && (forall k :: k in diff <==> if k in before && k in after then !vs.eq(before[k], after[k])
                                           else k in before || k in after)
            && (forall k | k in diff :: diff[k] == FieldDiff(if k in before then before[k] else vs.nil,
                                                             if k in after then after[k] else vs.nil))
  {
  }

  lemma AllFields<K, V>(vs: Values<V>, before: map<K, V>, after: map<K, V>)
    ensures DiffWithin(vs, before, after, before.Keys + after.Keys) == DiffOf(vs, before, after)
  {
  }

  // ---------------------------------------------------------------------------------------------------------
  // A diff is a patch
  // ---------------------------------------------------------------------------------------------------------

  /** Write every new value; a nil takes the field away. */
  function Apply<K, V(==)>(vs: Values<V>, m: map<K, V>, diff: Diff<K, V>): map<K, V> {
    map k | k in m.Keys + diff.Keys && (k in diff ==> diff[k].after != vs.nil)
      :: if k in diff then diff[k].after else m[k]
  }

  predicate SameValue<V(==)>(vs: Values<V>, x: V, y: V) {
    x == y || vs.eq(x, y)
  }

  ghost predicate SameState<K, V>(vs: Values<V>, m: map<K, V>, n: map<K, V>) {
    m.Keys == n.Keys && forall k | k in m :: SameValue(vs, m[k], n[k])
  }

  /** No field comes to hold an explicit nil: the only nils of the later state were there before. */
  ghost predicate NoNewNil<K, V>(vs: Values<V>, before: map<K, V>, after: map<K, V>) {
    forall k | k in after && after[k] == vs.nil :: k in before && before[k] == vs.nil
  }

  lemma PatchedField<K(!new), V(!new)>(vs: Values<V>, before: map<K, V>, after: map<K, V>, k: K)
    requires Equality(vs)
    ensures var patched := Apply(vs, before, DiffOf(vs, before, after));
            && (k in patched <==> k in after && (after[k] == vs.nil ==> k in before && before[k] == vs.nil))
            && (k in patched ==> SameValue(vs, patched[k], after[k]))
  {
    var diff := DiffOf(vs, before, after);
    assert k in diff <==> Differs(vs, before, after, k);
  }

  /**
   * Applying the diff to the earlier state gives the later one, if and only if no field comes to hold an explicit nil.
   */
  lemma DiffIsPatch<K(!new), V(!new)>(vs: Values<V>, before: map<K, V>, after: map<K, V>)
    requires Equality(vs)
    ensures SameState(vs, Apply(vs, before, DiffOf(vs, before, after)), after) <==> NoNewNil(vs, before, after)
  {
    hide Apply, DiffOf, SameValue, Equality;
    var patched := Apply(vs, before, DiffOf(vs, before, after));
    forall k
      ensures k in patched <==> k in after && (after[k] == vs.nil ==> k in before && before[k] == vs.nil)
      ensures k in patched ==> SameValue(vs, patched[k], after[k])
    {
      PatchedField(vs, before, after, k);
    }
    if NoNewNil(vs, before, after) {
      assert patched.Keys <= after.Keys && after.Keys <= patched.Keys;
    } else {
      var k :| k in after && after[k] == vs.nil && !(k in before && before[k] == vs.nil);
      assert k !in patched.Keys && k in after.Keys;
    }
  }

  /** A field that comes to hold nil is lost: its entry looks like that of a field taken away. */
  lemma NewNilIsLost<K(!new), V(!new)>(vs: Values<V>, k: K)
    requires Equality(vs)
    ensures var before: map<K, V>, after := map[], map[k := vs.nil];
            && Apply(vs, before, DiffOf(vs, before, after)) == map[]
            && !SameState(vs, Apply(vs, before, DiffOf(vs, before, after)), after)
  {
    var before: map<K, V>, after := map[], map[k := vs.nil];
    assert k in after && k !in before;
    DiffIsPatch(vs, before, after);
  }

  function Reversed<K, V>(diff: Diff<K, V>): Diff<K, V> {
    map k | k in diff :: FieldDiff(diff[k].after, diff[k].before)
  }

  /**
   * Swapping the states swaps the two sides of every entry, so the reversed diff is the patch that undoes the change.
   */
  lemma SwappedDiff<K(!new), V(!new)>(vs: Values<V>, before: map<K, V>, after: map<K, V>)
    requires Equality(vs)
    ensures DiffOf(vs, after, before) == Reversed(DiffOf(vs, before, after))
    ensures SameState(vs, Apply(vs, after, Reversed(DiffOf(vs, before, after))), before)
            <==> NoNewNil(vs, after, before)
  {
    hide Apply;
    assert forall k :: Differs(vs, before, after, k) <==> Differs(vs, after, before, k);
    DiffIsPatch(vs, after, before);
  }

  ghost predicate Agree<K, V>(vs: Values<V>, before: map<K, V>, after: map<K, V>) {
    before.Keys == after.Keys && forall k | k in before :: vs.eq(before[k], after[k])
  }

  lemma EmptyDiff<K(!new), V(!new)>(vs: Values<V>, before: map<K, V>, after: map<K, V>)
    ensures DiffOf(vs, before, after) == map[] <==> Agree(vs, before, after)
  {
    var diff := DiffOf(vs, before, after);
    assert forall k :: k in diff <==> Differs(vs, before, after, k);
    if diff == map[] {
      forall k
        ensures k in before.Keys <==> k in after.Keys
        ensures k in before && k in after ==> vs.eq(before[k], after[k])
      {
        assert k !in diff;
        assert !Differs(vs, before, after, k);
      }
    } else {
      var k :| k in diff;
      assert k in before.Keys <==> k in before;
    }
  }

  // ---------------------------------------------------------------------------------------------------------
  // Composition
  // ---------------------------------------------------------------------------------------------------------

  /** Two changes in a row as one; a field changed and changed back is not a change. */
  function Compose<K, V>(vs: Values<V>, first: Diff<K, V>, second: Diff<K, V>): Diff<K, V> {
    map k | k in first.Keys + second.Keys
            && !(k in first && k in second && vs.eq(first[k].before, second[k].after))
      :: FieldDiff(if k in first then first[k].before else second[k].before,
                   if k in second then second[k].after else first[k].after)
  }

  ghost predicate SameDiff<K, V>(vs: Values<V>, d: Diff<K, V>, e: Diff<K, V>) {
    && d.Keys == e.Keys
    && forall k | k in d :: SameValue(vs, d[k].before, e[k].before) && SameValue(vs, d[k].after, e[k].after)
  }

  /**
   * Absent on one side and an explicit nil on the other, with a value in between: the entries cannot tell the two
   * apart.
   */
  predicate Blinks<K, V(==)>(vs: Values<V>, a: map<K, V>, b: map<K, V>, c: map<K, V>, k: K) {
    && (k in a) != (k in c) && Get(vs, a, k) == Get(vs, c, k) == vs.nil
    && k in b && b[k] != vs.nil
  }

  lemma ComposedField<K(!new), V(!new)>(vs: Values<V>, a: map<K, V>, b: map<K, V>, c: map<K, V>, k: K)
    requires Equality(vs)
    ensures var composed := Compose(vs, DiffOf(vs, a, b), DiffOf(vs, b, c));
            var direct := DiffOf(vs, a, c);
            && ((k in composed <==> k in direct) <==> !Blinks(vs, a, b, c, k))
            && (k in composed && k in direct ==>
                  && SameValue(vs, composed[k].before, direct[k].before)
                  && SameValue(vs, composed[k].after, direct[k].after))
  {
    var first, second, direct := DiffOf(vs, a, b), DiffOf(vs, b, c), DiffOf(vs, a, c);
    assert k in first <==> Differs(vs, a, b, k);
    assert k in second <==> Differs(vs, b, c, k);
    assert k in direct <==> Differs(vs, a, c, k);
  }

  /** The diffs of two steps compose to the diff of both, if and only if no field blinks. */
  lemma DiffsCompose<K(!new), V(!new)>(vs: Values<V>, a: map<K, V>, b: map<K, V>, c: map<K, V>)
    requires Equality(vs)
    ensures SameDiff(vs, Compose(vs, DiffOf(vs, a, b), DiffOf(vs, b, c)), DiffOf(vs, a, c))
            <==> forall k :: !Blinks(vs, a, b, c, k)
  {
    hide Compose, DiffOf, SameValue, Blinks, Equality;
    var composed, direct := Compose(vs, DiffOf(vs, a, b), DiffOf(vs, b, c)), DiffOf(vs, a, c);
    forall k
      ensures (k in composed <==> k in direct) <==> !Blinks(vs, a, b, c, k)
      ensures k in composed && k in direct ==>
                SameValue(vs, composed[k].before, direct[k].before) && SameValue(vs, composed[k].after, direct[k].after)
    {
      ComposedField(vs, a, b, c, k);
    }
    if composed.Keys == direct.Keys {
      forall k ensures !Blinks(vs, a, b, c, k) {
        assert k in composed.Keys <==> k in direct.Keys;
      }
    }
  }

  /** A field is set and then set to nil: the two steps compose to nothing, though the field is new. */
  lemma BlinkIsLost<K(!new), V(!new)>(vs: Values<V>, k: K, v: V)
    requires Equality(vs) && v != vs.nil
    ensures var a: map<K, V>, b, c := map[], map[k := v], map[k := vs.nil];
            && k in DiffOf(vs, a, c) && k !in Compose(vs, DiffOf(vs, a, b), DiffOf(vs, b, c))
            && !SameDiff(vs, Compose(vs, DiffOf(vs, a, b), DiffOf(vs, b, c)), DiffOf(vs, a, c))
  {
    var a: map<K, V>, b, c := map[], map[k := v], map[k := vs.nil];
    assert Blinks(vs, a, b, c, k);
    ComposedField(vs, a, b, c, k);
    DiffsCompose(vs, a, b, c);
    assert k in DiffOf(vs, a, c) <==> Differs(vs, a, c, k);
  }

  // ---------------------------------------------------------------------------------------------------------
  // Audit trails
  // ---------------------------------------------------------------------------------------------------------

  function Trail<K, V>(vs: Values<V>, states: seq<map<K, V>>): seq<Diff<K, V>> {
    if |states| <= 1 then [] else [DiffOf(vs, states[0], states[1])] + Trail(vs, states[1..])
  }

  function Replay<K, V(==)>(vs: Values<V>, m: map<K, V>, trail: seq<Diff<K, V>>): map<K, V>
    decreases |trail|
  {
    if trail == [] then m else Replay(vs, Apply(vs, m, trail[0]), trail[1..])
  }

  predicate NilAt<K, V(==)>(vs: Values<V>, m: map<K, V>, k: K) {
    k in m && m[k] == vs.nil
  }

  /** The copy shows the field as the state does. */
  predicate Holds<K, V(==)>(vs: Values<V>, copy: map<K, V>, state: map<K, V>, k: K) {
    (k in copy <==> k in state) && (k in copy && k in state ==> SameValue(vs, copy[k], state[k]))
  }

  /** The copy has no field where the state has an explicit nil. */
  predicate Lost<K, V(==)>(vs: Values<V>, copy: map<K, V>, state: map<K, V>, k: K) {
    k !in copy && NilAt(vs, state, k)
  }

  lemma StepReplays<K(!new), V(!new)>(vs: Values<V>, copy: map<K, V>, s: map<K, V>, t: map<K, V>, k: K)
    requires Equality(vs) && (Holds(vs, copy, s, k) || Lost(vs, copy, s, k))
    ensures var next := Apply(vs, copy, DiffOf(vs, s, t));
            && (Holds(vs, next, t, k) || Lost(vs, next, t, k))
            && (Lost(vs, next, t, k) <==> NilAt(vs, t, k) && (Lost(vs, copy, s, k) || !NilAt(vs, s, k)))
  {
    assert k in DiffOf(vs, s, t) <==> Differs(vs, s, t, k);
  }

  predicate AlwaysNil<K, V(==)>(vs: Values<V>, states: seq<map<K, V>>, k: K) {
    forall i | 0 <= i < |states| :: NilAt(vs, states[i], k)
  }

  lemma {:induction false} FieldReplays<K(!new), V(!new)>(vs: Values<V>, copy: map<K, V>, states: seq<map<K, V>>, k: K)
    requires Equality(vs) && states != []
    requires Holds(vs, copy, states[0], k) || Lost(vs, copy, states[0], k)
    ensures var end, last := Replay(vs, copy, Trail(vs, states)), states[|states| - 1];
            && (Holds(vs, end, last, k) || Lost(vs, end, last, k))
            && (Lost(vs, end, last, k)
                <==> NilAt(vs, last, k) && (Lost(vs, copy, states[0], k) || !AlwaysNil(vs, states, k)))
    decreases |states|
  {
    hide Apply, DiffOf, Equality, Holds, Lost, NilAt;
    if |states| > 1 {
      var next := Apply(vs, copy, DiffOf(vs, states[0], states[1]));
      StepReplays(vs, copy, states[0], states[1], k);
      FieldReplays(vs, next, states[1..], k);
      assert ([DiffOf(vs, states[0], states[1])] + Trail(vs, states[1..]))[1..] == Trail(vs, states[1..]);
      assert states == [states[0]] + states[1..];
      assert AlwaysNil(vs, states, k) <==> NilAt(vs, states[0], k) && AlwaysNil(vs, states[1..], k);
    } else {
      NeverBoth(vs, copy, states[0], k);
    }
  }

  lemma NeverBoth<K(!new), V(!new)>(vs: Values<V>, copy: map<K, V>, state: map<K, V>, k: K)
    ensures !(Holds(vs, copy, state, k) && Lost(vs, copy, state, k))
    ensures Lost(vs, copy, state, k) ==> NilAt(vs, state, k)
    ensures Holds(vs, copy, copy, k)
  {
  }

  /**
   * Replaying the whole trail of an entity from its first state gives its last state, if and only if every explicit nil
   * at the end was there in all of its states.
   */
  lemma TrailReplays<K(!new), V(!new)>(vs: Values<V>, states: seq<map<K, V>>)
    requires Equality(vs) && states != []
    ensures SameState(vs, Replay(vs, states[0], Trail(vs, states)), states[|states| - 1])
            <==> forall k | NilAt(vs, states[|states| - 1], k) :: AlwaysNil(vs, states, k)
  {
    hide Replay, Trail, Equality, NilAt, AlwaysNil, Holds, Lost;
    var end, last := Replay(vs, states[0], Trail(vs, states)), states[|states| - 1];
    forall k
      ensures Holds(vs, end, last, k) <==> !(NilAt(vs, last, k) && !AlwaysNil(vs, states, k))
    {
      NeverBoth(vs, states[0], states[0], k);
      FieldReplays(vs, states[0], states, k);
      NeverBoth(vs, end, last, k);
    }
    HoldsEverywhere(vs, end, last);
  }

  lemma HoldsEverywhere<K(!new), V(!new)>(vs: Values<V>, copy: map<K, V>, state: map<K, V>)
    ensures SameState(vs, copy, state) <==> forall k :: Holds(vs, copy, state, k)
  {
    if forall k :: Holds(vs, copy, state, k) {
      forall k
        ensures k in copy.Keys <==> k in state.Keys
        ensures k in copy && k in state ==> SameValue(vs, copy[k], state[k])
      {
        assert Holds(vs, copy, state, k);
      }
      assert copy.Keys == state.Keys;
    }
    if SameState(vs, copy, state) {
      forall k ensures Holds(vs, copy, state, k) {
        assert k in copy.Keys <==> k in state.Keys;
      }
    }
  }

  /** A trail whose last state sets a field to nil replays to a state without the field. */
  lemma TrailLosesNil<K(!new), V(!new)>(vs: Values<V>, k: K, v: V)
    requires Equality(vs) && v != vs.nil
    ensures var states: seq<map<K, V>> := [map[k := v], map[k := vs.nil]];
            !SameState(vs, Replay(vs, states[0], Trail(vs, states)), states[1])
  {
    var states: seq<map<K, V>> := [map[k := v], map[k := vs.nil]];
    TrailReplays(vs, states);
    assert NilAt(vs, states[1], k) && !NilAt(vs, states[0], k);
  }

  // ---------------------------------------------------------------------------------------------------------
  // Events
  // ---------------------------------------------------------------------------------------------------------

  function Fields<K, V>(state: Option<map<K, V>>): map<K, V> {
    if state.Some? then state.value else map[]
  }

  /** NewEvent leaves the diff out when neither state is given; a state that is not given counts as empty. */
  method EventDiff<K(==), V(==)>(vs: Values<V>, before: Option<map<K, V>>, after: Option<map<K, V>>)
    returns (diff: Option<Diff<K, V>>)
    ensures diff.None? <==> before.None? && after.None?
    ensures diff.Some? ==>
              diff.value == DiffOf(vs, match before case None => map[] case Some(b) => b,
                                   match after case None => map[] case Some(a) => a)
  {
    if before.Some? || after.Some? {
      var d := ComputeDiff(vs, Fields(before), Fields(after));
      return Some(d);
    }
    return None;
  }
}
