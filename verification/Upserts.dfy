/**
 The upsert loop an import runs over a table: an entry whose key a row already
 had overwrites that row, any other entry inserts one. Templates, devices and
 brokers are three instances.
 */
module Upserts {
  import opened Prelude

  type Id = nat

  datatype ImportError = UnknownTemplate(device: string, template: string) | IntegrityError

  /** What one loop does with an entry. `remembers`: rows it inserts can be found by later entries. */
  datatype Table<!K, !V, !E> = Table(
    rowKey: V -> K,
    entryKey: E -> K,
    labelOf: E -> string,
    skips: E -> bool,
    write: (Option<V>, E) -> Result<V, ImportError>,
    remembers: bool
  )

  /** `known` finds rows by key, `index` collects the ids later sections look up by name. */
  datatype Load<K, V> = Load(rows: map<Id, V>, known: map<K, Id>, index: map<string, Id>, nextId: Id)

  predicate HasKey<K(==), V, E>(t: Table<K, V, E>, rows: map<Id, V>, key: K) {
    exists id <- rows :: t.rowKey(rows[id]) == key
  }

  function Known<K, V>(load: Load<K, V>, key: K): Option<V> {
    if key in load.known then Get(load.rows, load.known[key]) else None
  }

  /** A second row with the key would break the table's unique constraint. */
  function Inserted<K, V, E>(t: Table<K, V, E>, load: Load<K, V>, e: E, row: V): Result<Load<K, V>, ImportError> {
    if HasKey(t, load.rows, t.entryKey(e)) then Err(IntegrityError)
    else
      Ok(Load(load.rows[load.nextId := row],
              if t.remembers then load.known[t.entryKey(e) := load.nextId] else load.known,
              load.index[t.labelOf(e) := load.nextId],
              load.nextId + 1))
  }

  function Entered<K, V, E>(t: Table<K, V, E>, load: Load<K, V>, e: E): Result<Load<K, V>, ImportError> {
    var key := t.entryKey(e);
    if t.skips(e) then
      Ok(if key in load.known then load.(index := load.index[t.labelOf(e) := load.known[key]]) else load)
    else
      var row :- t.write(Known(load, key), e);
      if key in load.known then
        Ok(load.(rows := load.rows[load.known[key] := row], index := load.index[t.labelOf(e) := load.known[key]]))
      else Inserted(t, load, e, row)
  }

  function Upserted<K, V, E>(t: Table<K, V, E>, load: Load<K, V>, es: seq<E>): Result<Load<K, V>, ImportError> {
    if es == [] then Ok(load)
    else
      var before :- Upserted(t, load, es[..|es| - 1]);
      Entered(t, before, es[|es| - 1])
  }

  /** The loop stops at the first error. */
  lemma {:induction false} FirstErrorStops<K, V, E>(t: Table<K, V, E>, load: Load<K, V>, es: seq<E>, n: nat)
    requires n <= |es| && Upserted(t, load, es[..n]).Err?
    ensures Upserted(t, load, es) == Upserted(t, load, es[..n])
    decreases |es|
  {
    if n == |es| {
      assert es[..n] == es;
    } else {
      assert es[..|es| - 1][..n] == es[..n];
      FirstErrorStops(t, load, es[..|es| - 1], n);
    }
  }

  // --- What the loop keeps ---

  ghost predicate Lawful<K(!new), V(!new), E(!new)>(t: Table<K, V, E>) {
    && (forall prior: Option<V>, e: E :: WritesKey(t, prior, e))
    && (forall prior: Option<V>, e: E :: t.write(prior, e).Ok? <==> t.write(None, e).Ok?)
  }

  /** Writing an entry over a row of its key, or over nothing, gives a row of that key. */
  ghost predicate WritesKey<K, V, E>(t: Table<K, V, E>, prior: Option<V>, e: E) {
    t.write(prior, e).Ok? && (prior.Some? ==> t.rowKey(prior.value) == t.entryKey(e)) ==>
      t.rowKey(t.write(prior, e).value) == t.entryKey(e)
  }

  ghost predicate UniqueKeys<K, V, E>(t: Table<K, V, E>, rows: map<Id, V>) {
    forall i <- rows, j <- rows :: t.rowKey(rows[i]) == t.rowKey(rows[j]) ==> i == j
  }

  ghost predicate Sound<K, V, E>(t: Table<K, V, E>, load: Load<K, V>) {
    && UniqueKeys(t, load.rows)
    && (forall id <- load.rows :: id < load.nextId)
    && (forall key <- load.known :: load.known[key] in load.rows && t.rowKey(load.rows[load.known[key]]) == key)
    && (forall name <- load.index :: load.index[name] in load.rows)
  }

  /** Every row can be found by its key, as just after the table was read. */
  ghost predicate Complete<K, V, E>(t: Table<K, V, E>, load: Load<K, V>) {
    forall id <- load.rows :: t.rowKey(load.rows[id]) in load.known && load.known[t.rowKey(load.rows[id])] == id
  }

  /** No row is lost or changes its key, and the new ones have new ids. */
  ghost predicate Extends<K, V, E>(t: Table<K, V, E>, before: Load<K, V>, after: Load<K, V>) {
    && before.nextId <= after.nextId
    && (forall id <- before.rows :: id in after.rows && t.rowKey(after.rows[id]) == t.rowKey(before.rows[id]))
    && (forall id <- after.rows :: id in before.rows || before.nextId <= id)
    && (forall key <- before.known :: key in after.known && after.known[key] == before.known[key])
    && (!t.remembers ==> after.known == before.known)
  }

  lemma EnteredKeeps<K(!new), V(!new), E(!new)>(t: Table<K, V, E>, load: Load<K, V>, e: E)
    requires Lawful(t) && Sound(t, load) && Entered(t, load, e).Ok?
    ensures Sound(t, Entered(t, load, e).value)
    ensures Extends(t, load, Entered(t, load, e).value)
  {
    var after := Entered(t, load, e).value;
    var key := t.entryKey(e);
    assert WritesKey(t, Known(load, key), e);
    if !t.skips(e) && key !in load.known {
      assert load.nextId in after.rows;
      forall i <- after.rows, j <- after.rows | t.rowKey(after.rows[i]) == t.rowKey(after.rows[j])
        ensures i == j
      {
      }
    }
  }

  lemma {:induction false} UpsertedKeeps<K(!new), V(!new), E(!new)>(t: Table<K, V, E>, load: Load<K, V>, es: seq<E>)
    requires Lawful(t) && Sound(t, load) && Upserted(t, load, es).Ok?
    ensures Sound(t, Upserted(t, load, es).value)
    ensures Extends(t, load, Upserted(t, load, es).value)
    decreases |es|
  {
    if es != [] {
      var init := es[..|es| - 1];
      UpsertedKeeps(t, load, init);
      EnteredKeeps(t, Upserted(t, load, init).value, es[|es| - 1]);
    }
  }

  // --- Which row each key ends up with ---

  ghost predicate Concerns<K, V, E>(t: Table<K, V, E>, e: E, key: K) {
    !t.skips(e) && t.entryKey(e) == key
  }

  /** The row of a key, written by just the entries of that key, in order. */
  function After<K(==), V, E>(t: Table<K, V, E>, prior: Option<V>, es: seq<E>, key: K): Option<V>
    decreases |es|
  {
    if es == [] then prior
    else
      var before := After(t, prior, es[..|es| - 1], key);
      var e := es[|es| - 1];
      if t.skips(e) || t.entryKey(e) != key || t.write(before, e).Err? then before
      else Some(t.write(before, e).value)
  }

  /** Every entry that is not skipped leaves a row with its key. */
  lemma {:induction false} EntriesPresent<K(!new), V(!new), E(!new)>(
      t: Table<K, V, E>, load: Load<K, V>, es: seq<E>, n: nat)
    requires Lawful(t) && Sound(t, load) && Upserted(t, load, es).Ok?
    requires n < |es| && !t.skips(es[n])
    ensures HasKey(t, Upserted(t, load, es).value.rows, t.entryKey(es[n]))
    decreases |es|
  {
    var init := es[..|es| - 1];
    var before := Upserted(t, load, init).value;
    var after := Upserted(t, load, es).value;
    var e := es[|es| - 1];
    UpsertedKeeps(t, load, init);
    EnteredKeeps(t, before, e);
    if n < |init| {
      EntriesPresent(t, load, init, n);
      var id :| id in before.rows && t.rowKey(before.rows[id]) == t.entryKey(es[n]);
      assert id in after.rows;
    } else {
      var key := t.entryKey(e);
      assert WritesKey(t, Known(before, key), e);
      var id := if key in before.known then before.known[key] else before.nextId;
      assert id in after.rows && t.rowKey(after.rows[id]) == key;
    }
  }

  lemma {:induction false} AfterUnconcerned<K, V, E>(t: Table<K, V, E>, prior: Option<V>, es: seq<E>, key: K)
    requires forall e <- es :: !Concerns(t, e, key)
    ensures After(t, prior, es, key) == prior
    decreases |es|
  {
    if es != [] {
      assert es[|es| - 1] in es && !Concerns(t, es[|es| - 1], key);
      AfterUnconcerned(t, prior, es[..|es| - 1], key);
    }
  }

  /** One step of RowsFollowEntries, for an entry of the row's own key. */
  lemma OwnEntry<K(!new), V(!new), E(!new)>(t: Table<K, V, E>, before: Load<K, V>, e: E, id: Id)
    requires Lawful(t) && Sound(t, before) && Entered(t, before, e).Ok?
    requires id in Entered(t, before, e).value.rows && !t.skips(e)
    requires t.rowKey(Entered(t, before, e).value.rows[id]) == t.entryKey(e)
    ensures t.write(Get(before.rows, id), e) == Ok(Entered(t, before, e).value.rows[id])
    ensures id !in before.rows ==> !HasKey(t, before.rows, t.entryKey(e))
  {
    var after := Entered(t, before, e).value;
    var key := t.entryKey(e);
    EnteredKeeps(t, before, e);
    assert WritesKey(t, Known(before, key), e);
    var target := if key in before.known then before.known[key] else before.nextId;
    assert target in after.rows && t.rowKey(after.rows[target]) == key;
    assert id == target;
  }

  /** An entry that does not concern the row's key leaves the row alone. */
  lemma OtherEntry<K(!new), V(!new), E(!new)>(t: Table<K, V, E>, before: Load<K, V>, e: E, id: Id)
    requires Lawful(t) && Sound(t, before) && Entered(t, before, e).Ok?
    requires id in Entered(t, before, e).value.rows
    requires !Concerns(t, e, t.rowKey(Entered(t, before, e).value.rows[id]))
    ensures id in before.rows && before.rows[id] == Entered(t, before, e).value.rows[id]
  {
    EnteredKeeps(t, before, e);
    assert WritesKey(t, Known(before, t.entryKey(e)), e);
  }

  lemma {:induction false} AfterSingle<K, V, E>(t: Table<K, V, E>, prior: Option<V>, es: seq<E>, key: K, n: nat)
    requires n < |es| && Concerns(t, es[n], key) && t.write(prior, es[n]).Ok?
    requires forall m :: 0 <= m < |es| && Concerns(t, es[m], key) ==> m == n
    ensures After(t, prior, es, key) == Some(t.write(prior, es[n]).value)
    decreases |es|
  {
    var init := es[..|es| - 1];
    if n == |es| - 1 {
      forall e <- init
        ensures !Concerns(t, e, key)
      {
        var m :| 0 <= m < |init| && init[m] == e;
        assert es[m] == e;
      }
      AfterUnconcerned(t, prior, init, key);
    } else {
      assert forall m :: 0 <= m < |init| ==> init[m] == es[m];
      assert !Concerns(t, es[|es| - 1], key);
      AfterSingle(t, prior, init, key, n);
    }
  }

  /** The loop as a whole treats each row as if only the entries of its key had been there. */
  lemma {:induction false} RowsFollowEntries<K(!new), V(!new), E(!new)>(
      t: Table<K, V, E>, load: Load<K, V>, es: seq<E>, id: Id)
    requires Lawful(t) && Sound(t, load) && Upserted(t, load, es).Ok?
    requires id in Upserted(t, load, es).value.rows
    ensures var row := Upserted(t, load, es).value.rows[id];
      After(t, Get(load.rows, id), es, t.rowKey(row)) == Some(row)
    decreases |es|
  {
    if es != [] {
      var init, e := es[..|es| - 1], es[|es| - 1];
      var before, after := Upserted(t, load, init).value, Upserted(t, load, es).value;
      var key := t.rowKey(after.rows[id]);
      UpsertedKeeps(t, load, init);
      EnteredKeeps(t, before, e);
      if !Concerns(t, e, key) {
        OtherEntry(t, before, e, id);
        RowsFollowEntries(t, load, init, id);
      } else {
        OwnEntry(t, before, e, id);
        if id in before.rows {
          RowsFollowEntries(t, load, init, id);
        } else {
          NothingBefore(t, load, init, id, key);
        }
      }
    }
  }

  lemma NothingBefore<K(!new), V(!new), E(!new)>(t: Table<K, V, E>, load: Load<K, V>, es: seq<E>, id: Id, key: K)
    requires Lawful(t) && Sound(t, load) && Upserted(t, load, es).Ok?
    requires id !in Upserted(t, load, es).value.rows && !HasKey(t, Upserted(t, load, es).value.rows, key)
    ensures After(t, Get(load.rows, id), es, key) == Get(load.rows, id) == None
  {
    UpsertedKeeps(t, load, es);
    forall e <- es
      ensures !Concerns(t, e, key)
    {
      if Concerns(t, e, key) {
        var n :| 0 <= n < |es| && es[n] == e;
        EntriesPresent(t, load, es, n);
      }
    }
    AfterUnconcerned(t, Get(load.rows, id), es, key);
  }

  // --- When the loop succeeds ---

  ghost predicate Writable<K, V, E>(t: Table<K, V, E>, es: seq<E>) {
    forall e <- es :: t.skips(e) || t.write(None, e).Ok?
  }

  /** The second of two entries would insert a key the first has inserted. */
  ghost predicate Repeats<K, V, E>(t: Table<K, V, E>, load: Load<K, V>, d: E, e: E) {
    !t.remembers && !t.skips(e) && Concerns(t, d, t.entryKey(e)) && t.entryKey(e) !in load.known
  }

  /** No two entries insert the same key. */
  ghost predicate InsertsOnce<K, V, E>(t: Table<K, V, E>, load: Load<K, V>, es: seq<E>) {
    forall i, j :: 0 <= i < j < |es| ==> !Repeats(t, load, es[i], es[j])
  }

  /** A key no lookup finds has a row exactly when an earlier entry inserted it. */
  lemma KeyPresentExactly<K(!new), V(!new), E(!new)>(t: Table<K, V, E>, load: Load<K, V>, es: seq<E>, key: K)
    requires Lawful(t) && Sound(t, load) && Complete(t, load) && Upserted(t, load, es).Ok?
    requires key !in load.known
    ensures HasKey(t, Upserted(t, load, es).value.rows, key) <==> exists e :: e in es && Concerns(t, e, key)
  {
    var after := Upserted(t, load, es).value;
    UpsertedKeeps(t, load, es);
    if e :| e in es && Concerns(t, e, key) {
      var n :| 0 <= n < |es| && es[n] == e;
      EntriesPresent(t, load, es, n);
    } else if HasKey(t, after.rows, key) {
      var id :| id in after.rows && t.rowKey(after.rows[id]) == key;
      RowsFollowEntries(t, load, es, id);
      AfterUnconcerned(t, Get(load.rows, id), es, key);
      assert false;
    }
  }

  /** With remembering, the lookup never misses a row. */
  lemma {:induction false} RememberedComplete<K(!new), V(!new), E(!new)>(
      t: Table<K, V, E>, load: Load<K, V>, es: seq<E>)
    requires Lawful(t) && Sound(t, load) && Complete(t, load) && t.remembers && Upserted(t, load, es).Ok?
    ensures Complete(t, Upserted(t, load, es).value)
    decreases |es|
  {
    if es != [] {
      var init, e := es[..|es| - 1], es[|es| - 1];
      RememberedComplete(t, load, init);
      UpsertedKeeps(t, load, init);
      assert WritesKey(t, Known(Upserted(t, load, init).value, t.entryKey(e)), e);
    }
  }

  lemma LastAccepted<K(!new), V(!new), E(!new)>(t: Table<K, V, E>, load: Load<K, V>, init: seq<E>, e: E)
    requires Lawful(t) && Sound(t, load) && Complete(t, load) && Upserted(t, load, init).Ok? && !t.skips(e)
    ensures Entered(t, Upserted(t, load, init).value, e).Ok? <==>
      t.write(None, e).Ok? && (forall d <- init :: !Repeats(t, load, d, e))
  {
    var before := Upserted(t, load, init).value;
    var key := t.entryKey(e);
    UpsertedKeeps(t, load, init);
    assert t.write(Known(before, key), e).Ok? <==> t.write(None, e).Ok?;
    if t.remembers {
      RememberedComplete(t, load, init);
    }
    if key !in load.known {
      KeyPresentExactly(t, load, init, key);
    }
  }

  /** The loop gets through exactly when every row can be written and no key is inserted twice. */
  lemma {:induction false} AcceptedExactly<K(!new), V(!new), E(!new)>(t: Table<K, V, E>, load: Load<K, V>, es: seq<E>)
    requires Lawful(t) && Sound(t, load) && Complete(t, load)
    ensures Upserted(t, load, es).Ok? <==> Writable(t, es) && InsertsOnce(t, load, es)
    decreases |es|
  {
    if es != [] {
      var init, e := es[..|es| - 1], es[|es| - 1];
      AcceptedExactly(t, load, init);
      InsertsOnceLast(t, load, es);
      if Upserted(t, load, init).Ok? && !t.skips(e) {
        LastAccepted(t, load, init, e);
      }
    }
  }

  lemma InsertsOnceLast<K, V, E>(t: Table<K, V, E>, load: Load<K, V>, es: seq<E>)
    requires es != []
    ensures var init, e := es[..|es| - 1], es[|es| - 1];
      && (Writable(t, es) <==> Writable(t, init) && (t.skips(e) || t.write(None, e).Ok?))
      && (InsertsOnce(t, load, es) <==> InsertsOnce(t, load, init) && (forall d <- init :: !Repeats(t, load, d, e)))
  {
    var init, e := es[..|es| - 1], es[|es| - 1];
    assert es == init + [e];
    if InsertsOnce(t, load, es) {
      forall d <- init
        ensures !Repeats(t, load, d, e)
      {
        var i :| 0 <= i < |init| && init[i] == d;
        assert es[i] == d && es[|es| - 1] == e;
      }
      forall i, j | 0 <= i < j < |init|
        ensures !Repeats(t, load, init[i], init[j])
      {
        assert es[i] == init[i] && es[j] == init[j];
      }
    }
  }

  // --- Running the loop again ---

  /** The table read back after a run. */
  ghost predicate Reread<K, V, E>(t: Table<K, V, E>, out: Load<K, V>, again: Load<K, V>) {
    again.rows == out.rows && again.index == map[] && Sound(t, again) && Complete(t, again)
  }

  /** Nothing is inserted when every entry's key is known. */
  lemma {:induction false} AllKnownInsertsNothing<K(!new), V(!new), E(!new)>(
      t: Table<K, V, E>, load: Load<K, V>, es: seq<E>)
    requires Lawful(t) && Sound(t, load) && Upserted(t, load, es).Ok?
    requires forall e <- es :: t.skips(e) || t.entryKey(e) in load.known
    ensures var out := Upserted(t, load, es).value;
      out.rows.Keys == load.rows.Keys && out.nextId == load.nextId && out.known == load.known
    decreases |es|
  {
    if es != [] {
      var init := es[..|es| - 1];
      assert es[|es| - 1] in es;
      AllKnownInsertsNothing(t, load, init);
      UpsertedKeeps(t, load, init);
    }
  }

  /** A second run over the same entries changes no row, if none changes under its own entries. */
  lemma RerunChangesNothing<K(!new), V(!new), E(!new)>(
      t: Table<K, V, E>, load: Load<K, V>, es: seq<E>, again: Load<K, V>)
    requires Lawful(t) && Sound(t, load) && Complete(t, load) && Upserted(t, load, es).Ok?
    requires Reread(t, Upserted(t, load, es).value, again)
    requires forall id <- again.rows ::
      After(t, Some(again.rows[id]), es, t.rowKey(again.rows[id])) == Some(again.rows[id])
    ensures Upserted(t, again, es).Ok?
    ensures Upserted(t, again, es).value.rows == again.rows && Upserted(t, again, es).value.nextId == again.nextId
  {
    UpsertedKeeps(t, load, es);
    AcceptedExactly(t, load, es);
    forall e <- es | !t.skips(e)
      ensures t.entryKey(e) in again.known
    {
      var n :| 0 <= n < |es| && es[n] == e;
      EntriesPresent(t, load, es, n);
    }
    assert InsertsOnce(t, again, es);
    AcceptedExactly(t, again, es);
    AllKnownInsertsNothing(t, again, es);
    var out := Upserted(t, again, es).value;
    UpsertedKeeps(t, again, es);
    forall id <- again.rows
      ensures out.rows[id] == again.rows[id]
    {
      assert id in out.rows;
      RowsFollowEntries(t, again, es, id);
    }
  }

  // --- Running the loop over the table's own export ---

  /** Over the row it was exported from, the entry writes `after`, or is skipped and leaves it. */
  ghost predicate ExportOf<K, V, E>(t: Table<K, V, E>, row: V, e: E, after: V) {
    t.entryKey(e) == t.rowKey(row) && (if t.skips(e) then after == row else t.write(Some(row), e) == Ok(after))
  }

  ghost predicate ExportsAll<K, V, E>(
      t: Table<K, V, E>, rows: map<Id, V>, order: seq<Id>, es: seq<E>, after: map<Id, V>)
  {
    |es| == |order| &&
    forall n :: 0 <= n < |es| ==>
      order[n] in rows && order[n] in after && ExportOf(t, rows[order[n]], es[n], after[order[n]])
  }

  lemma OwnExportAccepted<K(!new), V(!new), E(!new)>(
      t: Table<K, V, E>, load: Load<K, V>, order: seq<Id>, es: seq<E>, after: map<Id, V>)
    requires Lawful(t) && Sound(t, load) && Complete(t, load) && ExportsAll(t, load.rows, order, es, after)
    ensures Upserted(t, load, es).Ok?
    ensures Upserted(t, load, es).value.rows.Keys == load.rows.Keys && Upserted(t, load, es).value.nextId == load.nextId
  {
    forall e <- es
      ensures t.entryKey(e) in load.known && (t.skips(e) || t.write(None, e).Ok?)
    {
      var n :| 0 <= n < |es| && es[n] == e;
      assert ExportOf(t, load.rows[order[n]], e, after[order[n]]);
      assert t.write(Some(load.rows[order[n]]), e).Ok? <==> t.write(None, e).Ok?;
    }
    AcceptedExactly(t, load, es);
    AllKnownInsertsNothing(t, load, es);
  }

  lemma OwnExportRow<K(!new), V(!new), E(!new)>(
      t: Table<K, V, E>, load: Load<K, V>, order: seq<Id>, es: seq<E>, after: map<Id, V>, n: nat)
    requires Lawful(t) && Sound(t, load) && Complete(t, load) && ExportsAll(t, load.rows, order, es, after)
    requires Lists(order, load.rows.Keys) && n < |order| && Upserted(t, load, es).Ok?
    ensures Get(Upserted(t, load, es).value.rows, order[n]) == Some(after[order[n]])
  {
    var id := order[n];
    var key := t.rowKey(load.rows[id]);
    assert ExportOf(t, load.rows[id], es[n], after[id]);
    UpsertedKeeps(t, load, es);
    RowsFollowEntries(t, load, es, id);
    forall m | 0 <= m < |es| && Concerns(t, es[m], key)
      ensures m == n
    {
      assert ExportOf(t, load.rows[order[m]], es[m], after[order[m]]);
    }
    if t.skips(es[n]) {
      AfterUnconcerned(t, Some(load.rows[id]), es, key);
    } else {
      AfterSingle(t, Some(load.rows[id]), es, key, n);
    }
  }

  /** Each row is overwritten by its own export alone. */
  lemma OwnExportRows<K(!new), V(!new), E(!new)>(
      t: Table<K, V, E>, load: Load<K, V>, order: seq<Id>, es: seq<E>, after: map<Id, V>)
    requires Lawful(t) && Sound(t, load) && Complete(t, load) && ExportsAll(t, load.rows, order, es, after)
    requires Lists(order, load.rows.Keys) && after.Keys == load.rows.Keys
    ensures Upserted(t, load, es).Ok?
    ensures Upserted(t, load, es).value.rows == after && Upserted(t, load, es).value.nextId == load.nextId
  {
    OwnExportAccepted(t, load, order, es, after);
    forall id <- load.rows
      ensures Upserted(t, load, es).value.rows[id] == after[id]
    {
      var n :| 0 <= n < |order| && order[n] == id;
      OwnExportRow(t, load, order, es, after, n);
    }
  }

  // --- Running the loop over another table's export ---

  /** Entries that are not skipped have different keys. */
  ghost predicate DistinctKeys<K, V, E>(t: Table<K, V, E>, es: seq<E>) {
    forall i, j :: 0 <= i < j < |es| && !t.skips(es[j]) ==> !Concerns(t, es[i], t.entryKey(es[j]))
  }

  lemma DistinctAccepted<K(!new), V(!new), E(!new)>(t: Table<K, V, E>, load: Load<K, V>, es: seq<E>)
    requires Lawful(t) && Sound(t, load) && Complete(t, load) && DistinctKeys(t, es) && Writable(t, es)
    ensures Upserted(t, load, es).Ok?
  {
    assert InsertsOnce(t, load, es);
    AcceptedExactly(t, load, es);
  }

  /** The one entry of a row's key wrote the row. */
  lemma WrittenByOwn<K(!new), V(!new), E(!new)>(t: Table<K, V, E>, load: Load<K, V>, es: seq<E>, id: Id, n: nat)
    requires Lawful(t) && Sound(t, load) && Complete(t, load) && Upserted(t, load, es).Ok? && DistinctKeys(t, es)
    requires id in Upserted(t, load, es).value.rows && n < |es|
    requires Concerns(t, es[n], t.rowKey(Upserted(t, load, es).value.rows[id]))
    ensures t.write(Get(load.rows, id), es[n]) == Ok(Upserted(t, load, es).value.rows[id])
  {
    var key := t.entryKey(es[n]);
    AcceptedExactly(t, load, es);
    RowsFollowEntries(t, load, es, id);
    assert es[n] in es && (t.write(Get(load.rows, id), es[n]).Ok? <==> t.write(None, es[n]).Ok?);
    AfterSingle(t, Get(load.rows, id), es, key, n);
  }

  lemma EntryWrites<K(!new), V(!new), E(!new)>(t: Table<K, V, E>, load: Load<K, V>, es: seq<E>, n: nat) returns (id: Id)
    requires Lawful(t) && Sound(t, load) && Complete(t, load) && Upserted(t, load, es).Ok? && DistinctKeys(t, es)
    requires n < |es| && !t.skips(es[n])
    ensures id in Upserted(t, load, es).value.rows
    ensures t.write(Get(load.rows, id), es[n]) == Ok(Upserted(t, load, es).value.rows[id])
    ensures id in load.rows ==> t.rowKey(load.rows[id]) == t.entryKey(es[n])
  {
    EntriesPresent(t, load, es, n);
    var rows := Upserted(t, load, es).value.rows;
    id :| id in rows && t.rowKey(rows[id]) == t.entryKey(es[n]);
    WrittenByOwn(t, load, es, id, n);
    UpsertedKeeps(t, load, es);
  }

  /** A new row was written by some entry. */
  lemma WrittenBySome<K(!new), V(!new), E(!new)>(
      t: Table<K, V, E>, load: Load<K, V>, es: seq<E>, id: Id) returns (n: nat)
    requires Lawful(t) && Sound(t, load) && Upserted(t, load, es).Ok?
    requires id in Upserted(t, load, es).value.rows && id !in load.rows
    ensures n < |es| && Concerns(t, es[n], t.rowKey(Upserted(t, load, es).value.rows[id]))
  {
    InsertedAreIndexed(t, load, es, id);
    var key := t.rowKey(Upserted(t, load, es).value.rows[id]);
    var e :| e in es && Records(t, Upserted(t, load, es).value, e, key);
    n :| 0 <= n < |es| && es[n] == e;
  }

  // --- Entries that overwrite ---

  /** What an entry writes does not depend on the entries written before it. */
  ghost predicate Overwrites<K, V(!new), E(!new)>(t: Table<K, V, E>) {
    forall prior: Option<V>, d: E :: t.write(prior, d).Ok? ==> WrittenAlike(t, Some(t.write(prior, d).value), prior)
  }

  ghost predicate WrittenAlike<K, V, E(!new)>(t: Table<K, V, E>, a: Option<V>, b: Option<V>) {
    forall e: E :: t.write(a, e) == t.write(b, e)
  }

  lemma {:induction false} AfterWrittenAlike<K(!new), V(!new), E(!new)>(
      t: Table<K, V, E>, prior: Option<V>, es: seq<E>, key: K)
    requires Overwrites(t)
    ensures WrittenAlike(t, After(t, prior, es, key), prior)
    decreases |es|
  {
    if es != [] {
      var before := After(t, prior, es[..|es| - 1], key);
      AfterWrittenAlike(t, prior, es[..|es| - 1], key);
      if t.write(before, es[|es| - 1]).Ok? {
        assert WrittenAlike(t, Some(t.write(before, es[|es| - 1]).value), before);
      }
    }
  }

  lemma {:induction false} AfterFromAlike<K(!new), V(!new), E(!new)>(
      t: Table<K, V, E>, a: Option<V>, b: Option<V>, es: seq<E>, key: K)
    requires Overwrites(t) && WrittenAlike(t, a, b)
    ensures After(t, a, es, key) == a || After(t, a, es, key) == After(t, b, es, key)
    decreases |es|
  {
    if es != [] {
      var init, e := es[..|es| - 1], es[|es| - 1];
      AfterFromAlike(t, a, b, init, key);
      AfterWrittenAlike(t, a, init, key);
      AfterWrittenAlike(t, b, init, key);
      assert t.write(After(t, a, init, key), e) == t.write(a, e) == t.write(b, e) == t.write(After(t, b, init, key), e);
    }
  }

  /** So where entries overwrite, a row that has been through them stays as it is. */
  lemma OverwrittenTwice<K(!new), V(!new), E(!new)>(t: Table<K, V, E>, prior: Option<V>, es: seq<E>, key: K)
    requires Overwrites(t)
    ensures var once := After(t, prior, es, key); After(t, once, es, key) == once
  {
    AfterWrittenAlike(t, prior, es, key);
    AfterFromAlike(t, After(t, prior, es, key), prior, es, key);
  }

  // --- Which id each name leads to ---

  /** The key of the last entry with this label. */
  function LastKey<K, V, E>(t: Table<K, V, E>, es: seq<E>, name: string): Option<K>
    decreases |es|
  {
    if es == [] then None
    else if t.labelOf(es[|es| - 1]) == name then Some(t.entryKey(es[|es| - 1]))
    else LastKey(t, es[..|es| - 1], name)
  }

  /** One entry records at most its own label. */
  lemma EntryRecords<K(!new), V(!new), E(!new)>(t: Table<K, V, E>, before: Load<K, V>, e: E, name: string)
    requires Lawful(t) && Sound(t, before) && Entered(t, before, e).Ok?
    ensures var after := Entered(t, before, e).value;
      if t.labelOf(e) == name && (!t.skips(e) || t.entryKey(e) in before.known)
      then
        && name in after.index && after.index[name] in after.rows
        && t.rowKey(after.rows[after.index[name]]) == t.entryKey(e)
      else Get(after.index, name) == Get(before.index, name)
  {
    EnteredKeeps(t, before, e);
    assert WritesKey(t, Known(before, t.entryKey(e)), e);
  }

  lemma {:induction false} IndexFollowsLastEntry<K(!new), V(!new), E(!new)>(
      t: Table<K, V, E>, load: Load<K, V>, es: seq<E>, name: string)
    requires Lawful(t) && Sound(t, load) && load.index == map[] && Upserted(t, load, es).Ok?
    requires forall e <- es :: !t.skips(e)
    ensures var out := Upserted(t, load, es).value;
      && (name in out.index <==> LastKey(t, es, name).Some?)
      && (name in out.index ==>
            out.index[name] in out.rows && t.rowKey(out.rows[out.index[name]]) == LastKey(t, es, name).value)
    decreases |es|
  {
    if es != [] {
      var init, e := es[..|es| - 1], es[|es| - 1];
      var before := Upserted(t, load, init).value;
      assert e in es && !t.skips(e);
      assert forall d <- init :: d in es;
      IndexFollowsLastEntry(t, load, init, name);
      UpsertedKeeps(t, load, init);
      EnteredKeeps(t, before, e);
      EntryRecords(t, before, e, name);
      assert name in before.index ==> Get(before.index, name) == Some(before.index[name]);
    }
  }

  /** Where the label is the key, a name leads to the row of that name. */
  lemma {:induction false} IndexIsByKey<V(!new), E(!new)>(
      t: Table<string, V, E>, load: Load<string, V>, es: seq<E>, name: string)
    requires Lawful(t) && Sound(t, load) && load.index == map[] && Upserted(t, load, es).Ok?
    requires forall e <- es :: t.labelOf(e) == t.entryKey(e)
    ensures var out := Upserted(t, load, es).value;
      name in out.index ==> out.index[name] in out.rows && t.rowKey(out.rows[out.index[name]]) == name
    decreases |es|
  {
    if es != [] {
      var init, e := es[..|es| - 1], es[|es| - 1];
      var before := Upserted(t, load, init).value;
      assert e in es && t.labelOf(e) == t.entryKey(e);
      assert forall d <- init :: d in es;
      IndexIsByKey(t, load, init, name);
      UpsertedKeeps(t, load, init);
      EnteredKeeps(t, before, e);
      EntryRecords(t, before, e, name);
      assert name in before.index ==> Get(before.index, name) == Some(before.index[name]);
    }
  }

  ghost predicate Records<K, V, E>(t: Table<K, V, E>, out: Load<K, V>, e: E, key: K) {
    Concerns(t, e, key) && t.labelOf(e) in out.index
  }

  /** The rows the loop inserted are all indexed. */
  lemma {:induction false} InsertedAreIndexed<K(!new), V(!new), E(!new)>(
      t: Table<K, V, E>, load: Load<K, V>, es: seq<E>, id: Id)
    requires Lawful(t) && Sound(t, load) && Upserted(t, load, es).Ok?
    requires id in Upserted(t, load, es).value.rows && id !in load.rows
    ensures var out := Upserted(t, load, es).value;
      exists e :: e in es && Records(t, out, e, t.rowKey(out.rows[id]))
    decreases |es|
  {
    assert es != [];
    var init, e := es[..|es| - 1], es[|es| - 1];
    var before, after := Upserted(t, load, init).value, Upserted(t, load, es).value;
    UpsertedKeeps(t, load, init);
    EnteredKeeps(t, before, e);
    if id in before.rows {
      InsertedAreIndexed(t, load, init, id);
      var d :| d in init && Records(t, before, d, t.rowKey(before.rows[id]));
      EntryRecords(t, before, e, t.labelOf(d));
      assert d in es && Records(t, after, d, t.rowKey(after.rows[id]));
    } else {
      assert WritesKey(t, Known(before, t.entryKey(e)), e);
      EntryRecords(t, before, e, t.labelOf(e));
      assert e in es && Records(t, after, e, t.rowKey(after.rows[id]));
    }
  }
}
