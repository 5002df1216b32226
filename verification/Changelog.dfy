/**
 Field-level change entries (contract/changelog/changelog.go): `Diff` as a patch that can be
 replayed and undone. The JSON encoder is a parameter and otherwise arbitrary.
 */
module Changelog {

  const ACTION_UPDATE := "update"

  datatype Entry = Entry(
    entityType: string,
    entityID: int,
    action: string,
    field: string,
    oldValue: string,
    newValue: string,
    changedBy: int,
    changedAt: int,
    reason: string)

  datatype FieldChange<V> = FieldChange(field: string, oldValue: V, newValue: V)

  /** What all entries of one Diff share. */
  datatype Stamp = Stamp(entityType: string, entityID: int, changedBy: int, changedAt: int, reason: string)

  type Encoder<!V> = V -> string

  predicate Changed<V>(c: FieldChange<V>, enc: Encoder<V>) {
    enc(c.oldValue) != enc(c.newValue)
  }

  function EntryFor<V>(st: Stamp, c: FieldChange<V>, enc: Encoder<V>): Entry {
    Entry(st.entityType, st.entityID, ACTION_UPDATE, c.field, enc(c.oldValue), enc(c.newValue),
          st.changedBy, st.changedAt, st.reason)
  }

  function Entries<V>(st: Stamp, cs: seq<FieldChange<V>>, enc: Encoder<V>): seq<Entry> {
    if cs == [] then []
    else
      var last := cs[|cs| - 1];
      Entries(st, cs[..|cs| - 1], enc) + (if Changed(last, enc) then [EntryFor(st, last, enc)] else [])
  }

  method Diff<V>(entityType: string, entityID: int, changedBy: int, reason: string,
                 changes: seq<FieldChange<V>>, now: int, enc: Encoder<V>) returns (entries: seq<Entry>)
    ensures entries == Entries(Stamp(entityType, entityID, changedBy, now, reason), changes, enc)
    ensures forall k :: 0 <= k < |entries| ==>
      && entries[k].entityType == entityType && entries[k].entityID == entityID && entries[k].action == "update"
      && entries[k].changedBy == changedBy && entries[k].changedAt == now && entries[k].reason == reason
    ensures forall k :: 0 <= k < |entries| ==> ShowsOne(entries[k], changes, enc)
    ensures forall i :: 0 <= i < |changes| && Changed(changes[i], enc) ==> ShownIn(changes[i], entries, enc)
  {
    entries := [];
    for k := 0 to |changes|
      invariant entries == Entries(Stamp(entityType, entityID, changedBy, now, reason), changes[..k], enc)
    {
      var c := changes[k];
      assert changes[..k + 1][..k] == changes[..k];
      var oldJSON := enc(c.oldValue);
      var newJSON := enc(c.newValue);
      if oldJSON == newJSON {
        continue;
      }
      entries := entries + [Entry(entityType, entityID, ACTION_UPDATE, c.field, oldJSON, newJSON, changedBy, now, reason)];
    }
    assert changes[..|changes|] == changes;
    DiffTells(Stamp(entityType, entityID, changedBy, now, reason), changes, enc);
  }

  /** The entry shows one of the changes, a real one. */
  predicate ShowsOne<V>(e: Entry, cs: seq<FieldChange<V>>, enc: Encoder<V>) {
    exists i :: 0 <= i < |cs| && Changed(cs[i], enc) && Shows(e, cs[i], enc)
  }

  /** One of the entries shows the change. */
  predicate ShownIn<V>(c: FieldChange<V>, es: seq<Entry>, enc: Encoder<V>) {
    exists k :: 0 <= k < |es| && Shows(es[k], c, enc)
  }

  /** What the entries say of the changes, both ways. */
  lemma DiffTells<V>(st: Stamp, cs: seq<FieldChange<V>>, enc: Encoder<V>)
    ensures var es := Entries(st, cs, enc);
      && (forall k :: 0 <= k < |es| ==> ShowsOne(es[k], cs, enc) && Stamped(es[k], st))
      && (forall i :: 0 <= i < |cs| && Changed(cs[i], enc) ==> ShownIn(cs[i], es, enc))
  {
    var es := Entries(st, cs, enc);
    var idx := EntriesInOrder(st, cs, enc);
    forall k | 0 <= k < |es|
      ensures ShowsOne(es[k], cs, enc) && Stamped(es[k], st)
    {
      assert Shows(es[k], cs[idx[k]], enc);
    }
    forall i | 0 <= i < |cs| && Changed(cs[i], enc)
      ensures ShownIn(cs[i], es, enc)
    {
      assert i in idx;
      var k :| 0 <= k < |idx| && idx[k] == i;
      assert Shows(es[k], cs[i], enc);
    }
  }

  // ---------- records and patches ----------

  /** A record as encoded field values. */
  type Record = map<string, string>

  function Replay(r: Record, es: seq<Entry>): Record {
    if es == [] then r else Replay(r, es[..|es| - 1])[es[|es| - 1].field := es[|es| - 1].newValue]
  }

  function Undo(r: Record, es: seq<Entry>): Record
    decreases |es|
  {
    if es == [] then r else Undo(r[es[|es| - 1].field := es[|es| - 1].oldValue], es[..|es| - 1])
  }

  predicate Distinct<V>(cs: seq<FieldChange<V>>) {
    forall i, j :: 0 <= i < j < |cs| ==> cs[i].field != cs[j].field
  }

  /** The record holds every change's old value. */
  predicate Before<V>(r: Record, cs: seq<FieldChange<V>>, enc: Encoder<V>) {
    forall i :: 0 <= i < |cs| ==> cs[i].field in r && r[cs[i].field] == enc(cs[i].oldValue)
  }

  /** The record with every change's new value. */
  function After<V>(r: Record, cs: seq<FieldChange<V>>, enc: Encoder<V>): Record {
    if cs == [] then r else After(r, cs[..|cs| - 1], enc)[cs[|cs| - 1].field := enc(cs[|cs| - 1].newValue)]
  }

  /** After the changes, a changed field has its new value and every other field is as it was. */
  lemma {:induction false} AfterMeans<V>(r: Record, cs: seq<FieldChange<V>>, enc: Encoder<V>)
    requires Distinct(cs)
    ensures forall i :: 0 <= i < |cs| ==> cs[i].field in After(r, cs, enc) && After(r, cs, enc)[cs[i].field] == enc(cs[i].newValue)
    ensures forall f :: (forall i :: 0 <= i < |cs| ==> cs[i].field != f) ==>
      (f in After(r, cs, enc) <==> f in r) && (f in r ==> After(r, cs, enc)[f] == r[f])
  {
    if cs != [] {
      var pre := cs[..|cs| - 1];
      AfterMeans(r, pre, enc);
      assert forall i :: 0 <= i < |pre| ==> pre[i] == cs[i];
    }
  }

  /** Replaying the entries turns the old record into the new one. */
  lemma {:induction false} ReplayGivesNew<V>(st: Stamp, r: Record, cs: seq<FieldChange<V>>, enc: Encoder<V>)
    requires Distinct(cs) && Before(r, cs, enc)
    ensures Replay(r, Entries(st, cs, enc)) == After(r, cs, enc)
  {
    if cs != [] {
      var pre, last := cs[..|cs| - 1], cs[|cs| - 1];
      ReplayGivesNew(st, r, pre, enc);
      var es := Entries(st, pre, enc);
      if Changed(last, enc) {
        assert (es + [EntryFor(st, last, enc)])[..|es|] == es;
      } else {
        AfterMeans(r, pre, enc);
        assert Entries(st, cs, enc) == es;
        assert last.field in r && r[last.field] == enc(last.newValue);
        assert forall i :: 0 <= i < |pre| ==> pre[i].field != last.field;
        assert After(r, pre, enc)[last.field := enc(last.newValue)] == After(r, pre, enc);
      }
    }
  }

  /** Undoing the entries, last first, turns the new record back into the old one. */
  lemma {:induction false} UndoGivesOld<V>(st: Stamp, r: Record, cs: seq<FieldChange<V>>, enc: Encoder<V>)
    requires Distinct(cs) && Before(r, cs, enc)
    ensures Undo(After(r, cs, enc), Entries(st, cs, enc)) == r
  {
    if cs != [] {
      var pre, last := cs[..|cs| - 1], cs[|cs| - 1];
      UndoGivesOld(st, r, pre, enc);
      AfterMeans(r, pre, enc);
      var es := Entries(st, pre, enc);
      assert last.field in r && r[last.field] == enc(last.oldValue);
      assert forall i :: 0 <= i < |pre| ==> pre[i].field != last.field;
      if Changed(last, enc) {
        assert (es + [EntryFor(st, last, enc)])[..|es|] == es;
        assert After(r, cs, enc)[last.field := enc(last.oldValue)] == After(r, pre, enc);
      } else {
        assert Entries(st, cs, enc) == es;
        assert After(r, cs, enc) == After(r, pre, enc);
      }
    }
  }

  /** Every entry is a real change, taken from the given changes in their order, and says what, when, why and by whom. */
  lemma {:induction false} EntriesInOrder<V>(st: Stamp, cs: seq<FieldChange<V>>, enc: Encoder<V>) returns (idx: seq<nat>)
    ensures |idx| == |Entries(st, cs, enc)|
    ensures forall k :: 0 <= k < |idx| ==> idx[k] < |cs| && Changed(cs[idx[k]], enc)
    ensures forall k :: 0 <= k < |idx| ==> Shows(Entries(st, cs, enc)[k], cs[idx[k]], enc) && Stamped(Entries(st, cs, enc)[k], st)
    ensures forall k, l :: 0 <= k < l < |idx| ==> idx[k] < idx[l]
    ensures forall i :: 0 <= i < |cs| && Changed(cs[i], enc) ==> i in idx
  {
    if cs == [] {
      idx := [];
    } else {
      var pre := cs[..|cs| - 1];
      idx := EntriesInOrder(st, pre, enc);
      if Changed(cs[|cs| - 1], enc) {
        idx := idx + [|cs| - 1];
      }
    }
  }

  /** The entry says of which entity, when, why and by whom. */
  predicate Stamped(e: Entry, st: Stamp) {
    && e.action == "update" && e.entityType == st.entityType && e.entityID == st.entityID
    && e.changedBy == st.changedBy && e.changedAt == st.changedAt && e.reason == st.reason
  }

  /** The entry has the change's field and its two values, encoded. */
  predicate Shows<V>(e: Entry, c: FieldChange<V>, enc: Encoder<V>) {
    e.field == c.field && e.oldValue == enc(c.oldValue) && e.newValue == enc(c.newValue)
  }

  // ---------- minimality ----------

  function Fields(es: seq<Entry>): set<string> {
    if es == [] then {} else Fields(es[..|es| - 1]) + {es[|es| - 1].field}
  }

  lemma {:induction false} FieldsBound(es: seq<Entry>)
    ensures |Fields(es)| <= |es|
  {
    if es != [] {
      FieldsBound(es[..|es| - 1]);
    }
  }

  lemma {:induction false} FieldsExact<V>(st: Stamp, cs: seq<FieldChange<V>>, enc: Encoder<V>)
    requires Distinct(cs)
    ensures |Fields(Entries(st, cs, enc))| == |Entries(st, cs, enc)|
    ensures forall f :: f in Fields(Entries(st, cs, enc)) ==> LastChange(cs, enc, f) >= 0
  {
    if cs != [] {
      var pre, last := cs[..|cs| - 1], cs[|cs| - 1];
      FieldsExact(st, pre, enc);
      var es := Entries(st, pre, enc);
      assert forall f :: f in Fields(es) ==> pre[LastChange(pre, enc, f)].field == f;
      assert last.field !in Fields(es);
      if Changed(last, enc) {
        assert (es + [EntryFor(st, last, enc)])[..|es|] == es;
      } else {
        assert Entries(st, cs, enc) == es;
      }
    }
  }

  lemma {:induction false} UntouchedField(r: Record, es: seq<Entry>, f: string)
    requires f !in Fields(es)
    ensures f in Replay(r, es) <==> f in r
    ensures f in r ==> Replay(r, es)[f] == r[f]
  {
    if es != [] {
      UntouchedField(r, es[..|es| - 1], f);
    }
  }

  /** No list of entries that has the same effect is shorter than the Diff. */
  lemma DiffIsMinimal<V>(st: Stamp, r: Record, cs: seq<FieldChange<V>>, enc: Encoder<V>, other: seq<Entry>)
    requires Distinct(cs) && Before(r, cs, enc)
    requires Replay(r, other) == After(r, cs, enc)
    ensures |Entries(st, cs, enc)| <= |other|
  {
    var es := Entries(st, cs, enc);
    FieldsExact(st, cs, enc);
    AfterMeans(r, cs, enc);
    forall f | f in Fields(es)
      ensures f in Fields(other)
    {
      var i := LastChange(cs, enc, f);
      assert cs[i].field == f && Changed(cs[i], enc);
      if f !in Fields(other) {
        UntouchedField(r, other, f);
      }
    }
    assert Fields(es) <= Fields(other);
    SubsetSize(Fields(es), Fields(other));
    FieldsBound(other);
  }

  lemma SubsetSize(a: set<string>, b: set<string>)
    requires a <= b
    ensures |a| <= |b|
  {
    assert b == a + (b - a);
  }

  // ---------- composition ----------

  /** The change, carried on to the value the later changes give its field, if they list it. */
  function Carried<V>(c: FieldChange<V>, later: seq<FieldChange<V>>): FieldChange<V> {
    var j := LastListing(later, c.field);
    if j < 0 then c else c.(newValue := later[j].newValue)
  }

  function Select<V>(b: seq<FieldChange<V>>, keep: FieldChange<V> -> bool): seq<FieldChange<V>> {
    if b == [] then []
    else Select(b[..|b| - 1], keep) + (if keep(b[|b| - 1]) then [b[|b| - 1]] else [])
  }

  predicate Lists<V>(cs: seq<FieldChange<V>>, f: string) { LastListing(cs, f) >= 0 }

  /** The later changes to fields the earlier ones do not list. */
  function Unlisted<V>(a: seq<FieldChange<V>>, b: seq<FieldChange<V>>): seq<FieldChange<V>> {
    Select(b, (c: FieldChange<V>) => !Lists(a, c.field))
  }

  /** Two consecutive lists of changes as one: the first old and the last new value of every field in either. */
  function Merge<V>(a: seq<FieldChange<V>>, b: seq<FieldChange<V>>): seq<FieldChange<V>> {
    seq(|a|, i requires 0 <= i < |a| => Carried(a[i], b)) + Unlisted(a, b)
  }

  /** The positions Select keeps. */
  function Chosen<V>(b: seq<FieldChange<V>>, keep: FieldChange<V> -> bool): seq<nat> {
    if b == [] then []
    else Chosen(b[..|b| - 1], keep) + (if keep(b[|b| - 1]) then [|b| - 1] else [])
  }

  lemma {:induction false} ChosenAscend<V>(b: seq<FieldChange<V>>, keep: FieldChange<V> -> bool)
    ensures forall k :: 0 <= k < |Chosen(b, keep)| ==> Chosen(b, keep)[k] < |b|
    ensures forall k, l :: 0 <= k < l < |Chosen(b, keep)| ==> Chosen(b, keep)[k] < Chosen(b, keep)[l]
  {
    if b != [] {
      ChosenAscend(b[..|b| - 1], keep);
    }
  }

  lemma {:induction false} ChosenAll<V>(b: seq<FieldChange<V>>, keep: FieldChange<V> -> bool, j: nat)
    requires j < |b| && keep(b[j])
    ensures j in Chosen(b, keep)
  {
    if j < |b| - 1 {
      ChosenAll(b[..|b| - 1], keep, j);
    }
  }

  lemma {:induction false} ChosenMatch<V>(b: seq<FieldChange<V>>, keep: FieldChange<V> -> bool, k: nat)
    requires k < |Chosen(b, keep)|
    ensures |Chosen(b, keep)| == |Select(b, keep)| && Chosen(b, keep)[k] < |b|
    ensures Select(b, keep)[k] == b[Chosen(b, keep)[k]] && keep(b[Chosen(b, keep)[k]])
  {
    var pre := b[..|b| - 1];
    ChosenCount(b, keep);
    ChosenCount(pre, keep);
    if k < |Chosen(pre, keep)| {
      ChosenMatch(pre, keep, k);
    }
  }

  lemma {:induction false} ChosenCount<V>(b: seq<FieldChange<V>>, keep: FieldChange<V> -> bool)
    ensures |Chosen(b, keep)| == |Select(b, keep)|
  {
    if b != [] {
      ChosenCount(b[..|b| - 1], keep);
    }
  }

  lemma Listed<V>(cs: seq<FieldChange<V>>, i: nat)
    requires Distinct(cs) && i < |cs|
    ensures LastListing(cs, cs[i].field) == i
  {
  }

  /** Where the merged list holds each change. */
  lemma MergeHas<V>(a: seq<FieldChange<V>>, b: seq<FieldChange<V>>) returns (idx: seq<nat>)
    ensures |Merge(a, b)| == |a| + |idx|
    ensures forall i :: 0 <= i < |a| ==> Merge(a, b)[i] == Carried(a[i], b)
    ensures forall k :: 0 <= k < |idx| ==> idx[k] < |b| && Merge(a, b)[|a| + k] == b[idx[k]] && !Lists(a, b[idx[k]].field)
    ensures forall k, l :: 0 <= k < l < |idx| ==> idx[k] < idx[l]
    ensures forall j :: 0 <= j < |b| && !Lists(a, b[j].field) ==> j in idx
  {
    var keep := (c: FieldChange<V>) => !Lists(a, c.field);
    idx := Chosen(b, keep);
    ChosenCount(b, keep);
    ChosenAscend(b, keep);
    forall k | 0 <= k < |idx|
      ensures idx[k] < |b| && Select(b, keep)[k] == b[idx[k]] && keep(b[idx[k]])
    {
      ChosenMatch(b, keep, k);
    }
    forall j | 0 <= j < |b| && keep(b[j])
      ensures j in idx
    {
      ChosenAll(b, keep, j);
    }
  }

  lemma MergeDistinct<V>(a: seq<FieldChange<V>>, b: seq<FieldChange<V>>)
    requires Distinct(a) && Distinct(b)
    ensures Distinct(Merge(a, b))
  {
    var idx := MergeHas(a, b);
    var m := Merge(a, b);
    assert forall k :: 0 <= k < |a| ==> m[k].field == a[k].field;
    forall k, l | 0 <= k < l < |m|
      ensures m[k].field != m[l].field
    {
      if l >= |a| {
        assert m[l] == b[idx[l - |a|]];
        if k >= |a| {
          assert m[k] == b[idx[k - |a|]];
        }
      }
    }
  }

  lemma MergeBefore<V>(r: Record, a: seq<FieldChange<V>>, b: seq<FieldChange<V>>, enc: Encoder<V>)
    requires Distinct(a) && Before(r, a, enc) && Before(After(r, a, enc), b, enc)
    ensures Before(r, Merge(a, b), enc)
  {
    var m := Merge(a, b);
    var idx := MergeHas(a, b);
    forall k | 0 <= k < |m|
      ensures m[k].field in r && r[m[k].field] == enc(m[k].oldValue)
    {
      if k >= |a| {
        assert m[k] == b[idx[k - |a|]];
        AfterUnlisted(r, a, enc, m[k].field);
      }
    }
  }

  /** Making both lists of changes is making the merged one. */
  lemma AfterTwice<V>(r: Record, a: seq<FieldChange<V>>, b: seq<FieldChange<V>>, enc: Encoder<V>)
    requires Distinct(a) && Distinct(b)
    ensures After(After(r, a, enc), b, enc) == After(r, Merge(a, b), enc)
  {
    var x, y := After(After(r, a, enc), b, enc), After(r, Merge(a, b), enc);
    forall f
      ensures f in x <==> f in y
      ensures f in x ==> x[f] == y[f]
    {
      SameField(r, a, b, enc, f);
    }
  }

  lemma SameField<V>(r: Record, a: seq<FieldChange<V>>, b: seq<FieldChange<V>>, enc: Encoder<V>, f: string)
    requires Distinct(a) && Distinct(b)
    ensures var x, y := After(After(r, a, enc), b, enc), After(r, Merge(a, b), enc);
      (f in x <==> f in y) && (f in x ==> x[f] == y[f])
  {
    AfterValue(r, a, enc, f);
    AfterValue(After(r, a, enc), b, enc, f);
    AfterValue(r, Merge(a, b), enc, f);
    MergeListing(a, b, f);
  }

  /** The merged list gives a field the value its last listing in the two lists gives it. */
  lemma MergeListing<V>(a: seq<FieldChange<V>>, b: seq<FieldChange<V>>, f: string)
    requires Distinct(a) && Distinct(b)
    ensures var i, j, k := LastListing(a, f), LastListing(b, f), LastListing(Merge(a, b), f);
      if j >= 0 then k >= 0 && Merge(a, b)[k].newValue == b[j].newValue
      else if i >= 0 then k >= 0 && Merge(a, b)[k].newValue == a[i].newValue
      else k < 0
  {
    var idx := MergeHas(a, b);
    MergeDistinct(a, b);
    var m, i := Merge(a, b), LastListing(a, f);
    if i >= 0 {
      assert m[i] == Carried(a[i], b);
      Listed(m, i);
    } else {
      UnlistedListing(a, b, f, idx);
    }
  }

  lemma UnlistedListing<V>(a: seq<FieldChange<V>>, b: seq<FieldChange<V>>, f: string, idx: seq<nat>)
    requires Distinct(b) && Distinct(Merge(a, b)) && !Lists(a, f) && |Merge(a, b)| == |a| + |idx|
    requires forall i :: 0 <= i < |a| ==> Merge(a, b)[i].field == a[i].field
    requires forall k :: 0 <= k < |idx| ==> idx[k] < |b| && Merge(a, b)[|a| + k] == b[idx[k]]
    requires forall j :: 0 <= j < |b| && !Lists(a, b[j].field) ==> j in idx
    ensures var j, k := LastListing(b, f), LastListing(Merge(a, b), f);
      if j >= 0 then k >= 0 && Merge(a, b)[k].newValue == b[j].newValue else k < 0
  {
    var m, j := Merge(a, b), LastListing(b, f);
    if j >= 0 {
      assert j in idx;
      var k :| 0 <= k < |idx| && idx[k] == j;
      assert m[|a| + k] == b[j];
      Listed(m, |a| + k);
    } else {
      assert forall k :: |a| <= k < |m| ==> m[k] == b[idx[k - |a|]];
    }
  }

  lemma {:induction false} ReplayConcat(r: Record, x: seq<Entry>, y: seq<Entry>)
    ensures Replay(r, x + y) == Replay(Replay(r, x), y)
  {
    if y == [] {
      assert x + y == x;
    } else {
      var pre := y[..|y| - 1];
      ReplayConcat(r, x, pre);
      assert (x + y)[..|x + y| - 1] == x + pre;
    }
  }

  /**
   Replaying two consecutive diffs, whatever fields each lists, has the effect of the one diff of
   the merged changes, which is no longer than the two.
   */
  lemma DiffsCompose<V>(st: Stamp, tt: Stamp, r: Record, a: seq<FieldChange<V>>, b: seq<FieldChange<V>>, enc: Encoder<V>)
    requires Distinct(a) && Distinct(b) && Before(r, a, enc) && Before(After(r, a, enc), b, enc)
    ensures Replay(Replay(r, Entries(st, a, enc)), Entries(tt, b, enc)) == Replay(r, Entries(tt, Merge(a, b), enc))
    ensures |Entries(tt, Merge(a, b), enc)| <= |Entries(st, a, enc)| + |Entries(tt, b, enc)|
  {
    var m := Merge(a, b);
    ReplayGivesNew(st, r, a, enc);
    ReplayGivesNew(tt, After(r, a, enc), b, enc);
    MergeDistinct(a, b);
    MergeBefore(r, a, b, enc);
    ReplayGivesNew(tt, r, m, enc);
    AfterTwice(r, a, b, enc);
    ReplayConcat(r, Entries(st, a, enc), Entries(tt, b, enc));
    DiffIsMinimal(tt, r, m, enc, Entries(st, a, enc) + Entries(tt, b, enc));
  }

  lemma AfterUnlisted<V>(r: Record, cs: seq<FieldChange<V>>, enc: Encoder<V>, f: string)
    requires Distinct(cs) && forall i :: 0 <= i < |cs| ==> cs[i].field != f
    ensures (f in After(r, cs, enc) <==> f in r) && (f in r ==> After(r, cs, enc)[f] == r[f])
  {
    AfterMeans(r, cs, enc);
  }

  /** Without distinct names the patch is wrong: a field listed twice, the second time unchanged, replays to the first. */
  lemma RepeatedFieldBreaksReplay(st: Stamp)
    ensures var enc: Encoder<string> := (s: string) => s;
      var cs := [FieldChange("f", "1", "2"), FieldChange("f", "1", "1")];
      var r: Record := map["f" := "1"];
      Before(r, cs, enc) && Replay(r, Entries(st, cs, enc)) != After(r, cs, enc)
  {
    var enc: Encoder<string> := (s: string) => s;
    var cs := [FieldChange("f", "1", "2"), FieldChange("f", "1", "1")];
    var r: Record := map["f" := "1"];
    assert Changed(cs[0], enc) && LastListing(cs, "f") == 1;
    ReplayExactly(st, r, cs, enc);
  }

  // ---------- repeated names ----------

  /** The last position that lists a field, or -1. */
  function LastListing<V>(cs: seq<FieldChange<V>>, f: string): (k: int)
    ensures -1 <= k < |cs|
    ensures k >= 0 ==> cs[k].field == f
    ensures forall i :: k < i < |cs| ==> cs[i].field != f
  {
    if cs == [] then -1
    else if cs[|cs| - 1].field == f then |cs| - 1
    else LastListing(cs[..|cs| - 1], f)
  }

  /** The last position that changes a field, or -1. */
  function LastChange<V>(cs: seq<FieldChange<V>>, enc: Encoder<V>, f: string): (k: int)
    ensures -1 <= k < |cs|
    ensures k >= 0 ==> cs[k].field == f && Changed(cs[k], enc)
    ensures forall i :: k < i < |cs| ==> !(cs[i].field == f && Changed(cs[i], enc))
  {
    if cs == [] then -1
    else if cs[|cs| - 1].field == f && Changed(cs[|cs| - 1], enc) then |cs| - 1
    else LastChange(cs[..|cs| - 1], enc, f)
  }

  lemma {:induction false} AfterValue<V>(r: Record, cs: seq<FieldChange<V>>, enc: Encoder<V>, f: string)
    ensures var k := LastListing(cs, f);
      if k < 0 then (f in After(r, cs, enc) <==> f in r) && (f in r ==> After(r, cs, enc)[f] == r[f])
      else f in After(r, cs, enc) && After(r, cs, enc)[f] == enc(cs[k].newValue)
  {
    if cs != [] {
      AfterValue(r, cs[..|cs| - 1], enc, f);
    }
  }

  lemma {:induction false} ReplayValue<V>(st: Stamp, r: Record, cs: seq<FieldChange<V>>, enc: Encoder<V>, f: string)
    ensures var k, x := LastChange(cs, enc, f), Replay(r, Entries(st, cs, enc));
      if k < 0 then (f in x <==> f in r) && (f in r ==> x[f] == r[f])
      else f in x && x[f] == enc(cs[k].newValue)
  {
    if cs != [] {
      var pre, last := cs[..|cs| - 1], cs[|cs| - 1];
      ReplayValue(st, r, pre, enc, f);
      var es := Entries(st, pre, enc);
      if Changed(last, enc) {
        assert (es + [EntryFor(st, last, enc)])[..|es|] == es;
      } else {
        assert Entries(st, cs, enc) == es;
      }
    }
  }

  /** A field that any listing changes is also changed by its last listing. */
  predicate LastListingDecides<V>(cs: seq<FieldChange<V>>, enc: Encoder<V>) {
    forall i :: 0 <= i < |cs| && Changed(cs[i], enc) ==>
      var k := LastListing(cs, cs[i].field); k >= 0 && Changed(cs[k], enc)
  }

  /** With repeated names allowed, replay gives the new record exactly when the last listings decide. */
  lemma ReplayExactly<V>(st: Stamp, r: Record, cs: seq<FieldChange<V>>, enc: Encoder<V>)
    requires Before(r, cs, enc)
    ensures Replay(r, Entries(st, cs, enc)) == After(r, cs, enc) <==> LastListingDecides(cs, enc)
  {
    var x, y := Replay(r, Entries(st, cs, enc)), After(r, cs, enc);
    forall f
      ensures f in x <==> f in y
      ensures f in x ==> (x[f] == y[f] <==> LastChange(cs, enc, f) < 0 || LastChange(cs, enc, f) == LastListing(cs, f))
    {
      AfterValue(r, cs, enc, f);
      ReplayValue(st, r, cs, enc, f);
      var l := LastListing(cs, f);
      if l >= 0 {
        assert r[cs[l].field] == enc(cs[l].oldValue);
        var k := LastChange(cs, enc, f);
        if k >= 0 {
          assert r[cs[k].field] == enc(cs[k].oldValue);
          assert k <= l;
        }
      }
    }
    if LastListingDecides(cs, enc) {
      forall f | f in x
        ensures x[f] == y[f]
      {
        var k := LastChange(cs, enc, f);
        if k >= 0 {
          assert Changed(cs[k], enc);
        }
      }
    } else {
      var i :| 0 <= i < |cs| && Changed(cs[i], enc) && !(LastListing(cs, cs[i].field) >= 0 && Changed(cs[LastListing(cs, cs[i].field)], enc));
      var f := cs[i].field;
      assert f in r;
      AfterValue(r, cs, enc, f);
      assert LastChange(cs, enc, f) >= i;
      assert f in x;
    }
  }
}
