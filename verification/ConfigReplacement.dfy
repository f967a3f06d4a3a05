/**
 How an import replaces what belongs to a device: simulation configs and anomaly
 schedules are deleted once per device name and then inserted, publish configs
 are upserted one by one.
 */
module ConfigReplacement {
  import opened Prelude
  import opened Upserts

  /** One config of a device; `item` is what tells a device's configs apart. */
  datatype ConfigExport<R, S> = ConfigExport(device: string, item: R, spec: S)

  datatype Progress<R(==), S> = Progress(rows: map<(Id, R), S>, cleared: set<string>)

  function Without<R(==), S>(rows: map<(Id, R), S>, d: Id): map<(Id, R), S> {
    map k <- rows | k.0 != d :: rows[k]
  }

  /** A config whose device is unknown is dropped; a repeated item breaks the unique constraint. */
  function Entered<R(==), S>(ids: map<string, Id>, p: Progress<R, S>, e: ConfigExport<R, S>)
      : Result<Progress<R, S>, ImportError>
  {
    if e.device !in ids then Ok(p)
    else
      var d := ids[e.device];
      var rows := if e.device in p.cleared then p.rows else Without(p.rows, d);
      if (d, e.item) in rows then Err(IntegrityError)
      else Ok(Progress(rows[(d, e.item) := e.spec], p.cleared + {e.device}))
  }

  function Replaced<R(==), S>(ids: map<string, Id>, rows: map<(Id, R), S>, es: seq<ConfigExport<R, S>>)
      : Result<Progress<R, S>, ImportError>
  {
    if es == [] then Ok(Progress(rows, {}))
    else
      var before :- Replaced(ids, rows, es[..|es| - 1]);
      Entered(ids, before, es[|es| - 1])
  }

  lemma {:induction false} FirstErrorStops<R, S>(
      ids: map<string, Id>, rows: map<(Id, R), S>, es: seq<ConfigExport<R, S>>, n: nat)
    requires n <= |es| && Replaced(ids, rows, es[..n]).Err?
    ensures Replaced(ids, rows, es) == Replaced(ids, rows, es[..n])
    decreases |es|
  {
    if n == |es| {
      assert es[..n] == es;
    } else {
      assert es[..|es| - 1][..n] == es[..n];
      FirstErrorStops(ids, rows, es[..|es| - 1], n);
    }
  }

  ghost predicate Reaches<R, S>(ids: map<string, Id>, e: ConfigExport<R, S>, d: Id) {
    e.device in ids && ids[e.device] == d
  }

  ghost predicate Targets<R, S>(ids: map<string, Id>, e: ConfigExport<R, S>, k: (Id, R)) {
    Reaches(ids, e, k.0) && e.item == k.1
  }

  ghost predicate Touched<R, S>(ids: map<string, Id>, es: seq<ConfigExport<R, S>>, d: Id) {
    exists e :: e in es && Reaches(ids, e, d)
  }

  lemma TouchedLast<R, S>(ids: map<string, Id>, es: seq<ConfigExport<R, S>>, d: Id)
    requires es != []
    ensures Touched(ids, es, d) <==> Touched(ids, es[..|es| - 1], d) || Reaches(ids, es[|es| - 1], d)
  {
    var init, last := es[..|es| - 1], es[|es| - 1];
    assert es == init + [last];
    if e :| e in init && Reaches(ids, e, d) {
      assert e in es;
    }
    assert last in es;
  }

  /** Exactly the devices of the names gone through have been cleared. */
  lemma {:induction false} ClearedAreTouched<R, S>(
      ids: map<string, Id>, rows: map<(Id, R), S>, es: seq<ConfigExport<R, S>>)
    requires Replaced(ids, rows, es).Ok?
    ensures forall name :: name in Replaced(ids, rows, es).value.cleared <==>
      name in ids && exists e :: e in es && e.device == name
    decreases |es|
  {
    if es != [] {
      var init, last := es[..|es| - 1], es[|es| - 1];
      ClearedAreTouched(ids, rows, init);
      assert es == init + [last];
      assert last in es && forall e <- init :: e in es;
    }
  }

  /** A device no config names keeps its rows. */
  lemma {:induction false} UntouchedKeepRows<R, S>(
      ids: map<string, Id>, rows: map<(Id, R), S>, es: seq<ConfigExport<R, S>>, k: (Id, R))
    requires Replaced(ids, rows, es).Ok? && !Touched(ids, es, k.0)
    ensures Get(Replaced(ids, rows, es).value.rows, k) == Get(rows, k)
    decreases |es|
  {
    if es != [] {
      TouchedLast(ids, es, k.0);
      UntouchedKeepRows(ids, rows, es[..|es| - 1], k);
    }
  }

  lemma SameByGet<K(!new), V>(a: map<K, V>, b: map<K, V>)
    requires forall k: K :: Get(a, k) == Get(b, k)
    ensures a == b
  {
    forall k: K
      ensures k in a <==> k in b
      ensures k in a ==> a[k] == b[k]
    {
      assert Get(a, k) == Get(b, k);
    }
  }

  // --- What the replacement means ---

  /** Config m makes the loop delete the device's rows: it reaches the device under a name not seen before. */
  ghost predicate Clears<R, S>(ids: map<string, Id>, es: seq<ConfigExport<R, S>>, m: nat, d: Id)
    requires m < |es|
  {
    Reaches(ids, es[m], d) && forall i :: 0 <= i < m ==> es[i].device != es[m].device
  }

  /** Config n lands on the row and is not deleted again. */
  ghost predicate Stands<R, S>(ids: map<string, Id>, es: seq<ConfigExport<R, S>>, n: nat, k: (Id, R))
    requires n < |es|
  {
    Targets(ids, es[n], k) && forall m :: n < m < |es| ==> !Clears(ids, es, m, k.0)
  }

  lemma StandsLast<R, S>(ids: map<string, Id>, es: seq<ConfigExport<R, S>>, n: nat, k: (Id, R))
    requires n < |es|
    ensures Stands(ids, es, n, k) <==>
      if n == |es| - 1 then Targets(ids, es[n], k)
      else Stands(ids, es[..|es| - 1], n, k) && !Clears(ids, es, |es| - 1, k.0)
  {
    var init := es[..|es| - 1];
    forall m: nat | m < |init|
      ensures Clears(ids, init, m, k.0) <==> Clears(ids, es, m, k.0)
    {
      assert forall i :: 0 <= i < m ==> init[i] == es[i];
    }
  }

  /** The last config deletes exactly when its name has not been gone through. */
  lemma ClearsExactly<R, S>(ids: map<string, Id>, rows: map<(Id, R), S>, es: seq<ConfigExport<R, S>>)
    requires es != [] && Replaced(ids, rows, es[..|es| - 1]).Ok? && es[|es| - 1].device in ids
    ensures var n := |es| - 1;
      Clears(ids, es, n, ids[es[n].device]) <==> es[n].device !in Replaced(ids, rows, es[..n]).value.cleared
  {
    var init, e := es[..|es| - 1], es[|es| - 1];
    ClearedAreTouched(ids, rows, init);
    if c :| c in init && c.device == e.device {
      var i :| 0 <= i < |init| && init[i] == c;
      assert es[i].device == e.device;
    }
    assert forall i :: 0 <= i < |init| ==> es[i] == init[i] && es[i] in init;
  }

  /** The first config that reaches a device deletes its rows. */
  lemma FirstReachClears<R, S>(ids: map<string, Id>, es: seq<ConfigExport<R, S>>, d: Id)
    requires es != [] && Reaches(ids, es[|es| - 1], d) && !Touched(ids, es[..|es| - 1], d)
    ensures Clears(ids, es, |es| - 1, d)
  {
    forall i | 0 <= i < |es| - 1
      ensures es[i].device != es[|es| - 1].device
    {
      assert es[i] in es[..|es| - 1];
    }
  }

  /** What one more config makes of a row. */
  lemma LastEntryRow<R, S>(ids: map<string, Id>, rows: map<(Id, R), S>, es: seq<ConfigExport<R, S>>, k: (Id, R))
    requires es != [] && Replaced(ids, rows, es).Ok?
    ensures var n := |es| - 1;
      Get(Replaced(ids, rows, es).value.rows, k) ==
        if Targets(ids, es[n], k) then Some(es[n].spec)
        else if Clears(ids, es, n, k.0) then None
        else Get(Replaced(ids, rows, es[..n]).value.rows, k)
  {
    var e := es[|es| - 1];
    if e.device in ids {
      ClearsExactly(ids, rows, es);
      assert k == (k.0, k.1);
    }
  }

  ghost predicate SomeStands<R, S>(ids: map<string, Id>, es: seq<ConfigExport<R, S>>, k: (Id, R)) {
    exists n: nat :: n < |es| && Stands(ids, es, n, k)
  }

  /** A touched device holds exactly the configs that reached it and were not deleted after. */
  lemma {:induction false} ReplacedRows<R(!new), S>(
      ids: map<string, Id>, rows: map<(Id, R), S>, es: seq<ConfigExport<R, S>>, k: (Id, R))
    requires Replaced(ids, rows, es).Ok? && Touched(ids, es, k.0)
    ensures var out := Replaced(ids, rows, es).value.rows;
      && (k in out <==> SomeStands(ids, es, k))
      && (forall n: nat :: n < |es| && Stands(ids, es, n, k) ==> Get(out, k) == Some(es[n].spec))
    decreases |es|
  {
    var init, last := es[..|es| - 1], |es| - 1;
    TouchedLast(ids, es, k.0);
    LastEntryRow(ids, rows, es, k);
    forall n: nat | n < |es|
      ensures Stands(ids, es, n, k) <==>
        if n == last then Targets(ids, es[n], k) else Stands(ids, init, n, k) && !Clears(ids, es, last, k.0)
    {
      StandsLast(ids, es, n, k);
    }
    if Touched(ids, init, k.0) {
      ReplacedRows(ids, rows, init, k);
      StandsStep(ids, rows, es, k);
    } else {
      FirstReachClears(ids, es, k.0);
    }
  }

  /** A config that lands on a row it does not delete finds the row free. */
  lemma LandsOnFreeRow<R, S>(ids: map<string, Id>, rows: map<(Id, R), S>, es: seq<ConfigExport<R, S>>, k: (Id, R))
    requires es != [] && Replaced(ids, rows, es[..|es| - 1]).Ok? && Targets(ids, es[|es| - 1], k)
    ensures Replaced(ids, rows, es).Ok? <==>
      Clears(ids, es, |es| - 1, k.0) || k !in Replaced(ids, rows, es[..|es| - 1]).value.rows
  {
    ClearsExactly(ids, rows, es);
    assert k == (k.0, k.1);
  }

  /** The step, with what the earlier configs left. */
  lemma StandsStep<R(!new), S>(ids: map<string, Id>, rows: map<(Id, R), S>, es: seq<ConfigExport<R, S>>, k: (Id, R))
    requires es != [] && Replaced(ids, rows, es).Ok?
    requires var init := es[..|es| - 1];
      var before := Replaced(ids, rows, init).value.rows;
      && (k in before <==> SomeStands(ids, init, k))
      && (forall n: nat :: n < |init| && Stands(ids, init, n, k) ==> Get(before, k) == Some(init[n].spec))
    ensures var out := Replaced(ids, rows, es).value.rows;
      && (k in out <==> SomeStands(ids, es, k))
      && (forall n: nat :: n < |es| && Stands(ids, es, n, k) ==> Get(out, k) == Some(es[n].spec))
  {
    var init, last := es[..|es| - 1], |es| - 1;
    LastEntryRow(ids, rows, es, k);
    forall n: nat | n < |es|
      ensures Stands(ids, es, n, k) <==>
        if n == last then Targets(ids, es[n], k) else Stands(ids, init, n, k) && !Clears(ids, es, last, k.0)
    {
      StandsLast(ids, es, n, k);
    }
    if Targets(ids, es[last], k) {
      LandsOnFreeRow(ids, rows, es, k);
      assert Stands(ids, es, last, k);
      assert SomeStands(ids, init, k) ==> Clears(ids, es, last, k.0);
    } else if SomeStands(ids, init, k) && !Clears(ids, es, last, k.0) {
      var n: nat :| n < |init| && Stands(ids, init, n, k);
      assert Stands(ids, es, n, k);
    }
  }

  // --- When the replacement gets through ---

  /** Two configs land on one row. */
  ghost predicate SameTarget<R, S>(ids: map<string, Id>, d: ConfigExport<R, S>, e: ConfigExport<R, S>) {
    e.device in ids && Targets(ids, d, (ids[e.device], e.item))
  }

  ghost predicate ClearedBetween<R, S>(ids: map<string, Id>, es: seq<ConfigExport<R, S>>, i: nat, j: nat, d: Id)
    requires j < |es|
  {
    exists m: nat :: i < m <= j && Clears(ids, es, m, d)
  }

  ghost predicate Collides<R, S>(ids: map<string, Id>, es: seq<ConfigExport<R, S>>, i: nat, j: nat)
    requires i < j < |es|
  {
    SameTarget(ids, es[i], es[j]) && !ClearedBetween(ids, es, i, j, ids[es[j].device])
  }

  lemma CollidesEarlier<R, S>(ids: map<string, Id>, es: seq<ConfigExport<R, S>>, i: nat, j: nat)
    requires i < j < |es| - 1
    ensures Collides(ids, es[..|es| - 1], i, j) <==> Collides(ids, es, i, j)
  {
    var init := es[..|es| - 1];
    forall m: nat, d | m <= j
      ensures Clears(ids, init, m, d) <==> Clears(ids, es, m, d)
    {
      assert forall x :: 0 <= x < m ==> init[x] == es[x];
    }
  }

  /** The last config collides with an earlier one exactly when that one still stands. */
  lemma CollidesLast<R, S>(ids: map<string, Id>, es: seq<ConfigExport<R, S>>, i: nat)
    requires i < |es| - 1 && es[|es| - 1].device in ids
    ensures var e := es[|es| - 1];
      var k := (ids[e.device], e.item);
      Collides(ids, es, i, |es| - 1) <==> Stands(ids, es[..|es| - 1], i, k) && !Clears(ids, es, |es| - 1, k.0)
  {
    var e := es[|es| - 1];
    StandsLast(ids, es, i, (ids[e.device], e.item));
  }

  ghost predicate FindsRowFree<R, S>(ids: map<string, Id>, es: seq<ConfigExport<R, S>>, j: nat)
    requires j < |es|
  {
    forall i: nat :: i < j ==> !Collides(ids, es, i, j)
  }

  ghost predicate NoneCollide<R, S>(ids: map<string, Id>, es: seq<ConfigExport<R, S>>) {
    forall j: nat :: j < |es| ==> FindsRowFree(ids, es, j)
  }

  lemma NoneCollideLast<R, S>(ids: map<string, Id>, es: seq<ConfigExport<R, S>>)
    requires es != []
    ensures NoneCollide(ids, es) <==> NoneCollide(ids, es[..|es| - 1]) && FindsRowFree(ids, es, |es| - 1)
  {
    var init := es[..|es| - 1];
    forall j: nat | j < |init|
      ensures FindsRowFree(ids, init, j) <==> FindsRowFree(ids, es, j)
    {
      forall i: nat | i < j
        ensures Collides(ids, init, i, j) <==> Collides(ids, es, i, j)
      {
        CollidesEarlier(ids, es, i, j);
      }
    }
  }

  /**
   The replacement gets through exactly when of any two configs that land on one
   row, the row's device is cleared in between.
   */
  lemma {:induction false} ReplacedExactly<R(!new), S>(
      ids: map<string, Id>, rows: map<(Id, R), S>, es: seq<ConfigExport<R, S>>)
    ensures Replaced(ids, rows, es).Ok? <==> NoneCollide(ids, es)
    decreases |es|
  {
    if es != [] {
      var init, e := es[..|es| - 1], es[|es| - 1];
      ReplacedExactly(ids, rows, init);
      NoneCollideLast(ids, es);
      if Replaced(ids, rows, init).Ok? && e.device in ids {
        LastGetsThrough(ids, rows, es);
      }
    }
  }

  lemma LastGetsThrough<R(!new), S>(ids: map<string, Id>, rows: map<(Id, R), S>, es: seq<ConfigExport<R, S>>)
    requires es != [] && Replaced(ids, rows, es[..|es| - 1]).Ok? && es[|es| - 1].device in ids
    ensures Replaced(ids, rows, es).Ok? <==> FindsRowFree(ids, es, |es| - 1)
  {
    var init, e := es[..|es| - 1], es[|es| - 1];
    var k := (ids[e.device], e.item);
    LandsOnFreeRow(ids, rows, es, k);
    forall i: nat | i < |init|
      ensures Collides(ids, es, i, |init|) <==> Stands(ids, init, i, k) && !Clears(ids, es, |init|, k.0)
    {
      CollidesLast(ids, es, i);
    }
    if Touched(ids, init, k.0) {
      ReplacedRows(ids, rows, init, k);
    } else {
      FirstReachClears(ids, es, k.0);
    }
  }

  // --- Running the replacement again, under names that may lead elsewhere ---

  /** The same names are known, and the same ones share a device. */
  ghost predicate SamePattern(ids: map<string, Id>, ids1: map<string, Id>) {
    ids.Keys == ids1.Keys && forall a <- ids, b <- ids :: ids[a] == ids[b] <==> ids1[a] == ids1[b]
  }

  ghost predicate SameRows<R(!new), S>(rows: map<(Id, R), S>, d: Id, d1: Id) {
    forall r: R :: Get(rows, (d, r)) == Get(rows, (d1, r))
  }

  lemma ClearsAlike<R, S>(
      ids: map<string, Id>, ids1: map<string, Id>, es: seq<ConfigExport<R, S>>, m: nat, name: string)
    requires SamePattern(ids, ids1) && m < |es| && name in ids
    ensures Clears(ids, es, m, ids[name]) <==> Clears(ids1, es, m, ids1[name])
  {
  }

  lemma StandsAlike<R, S>(
      ids: map<string, Id>, ids1: map<string, Id>, es: seq<ConfigExport<R, S>>, n: nat, name: string, r: R)
    requires SamePattern(ids, ids1) && n < |es| && name in ids
    ensures Stands(ids, es, n, (ids[name], r)) <==> Stands(ids1, es, n, (ids1[name], r))
  {
    forall m: nat | m < |es|
      ensures Clears(ids, es, m, ids[name]) <==> Clears(ids1, es, m, ids1[name])
    {
      ClearsAlike(ids, ids1, es, m, name);
    }
  }

  lemma CollidesAlike<R, S>(ids: map<string, Id>, ids1: map<string, Id>, es: seq<ConfigExport<R, S>>, i: nat, j: nat)
    requires SamePattern(ids, ids1) && i < j < |es|
    ensures Collides(ids, es, i, j) <==> Collides(ids1, es, i, j)
  {
    if es[j].device in ids {
      forall m: nat | m < |es|
        ensures Clears(ids, es, m, ids[es[j].device]) <==> Clears(ids1, es, m, ids1[es[j].device])
      {
        ClearsAlike(ids, ids1, es, m, es[j].device);
      }
    }
  }

  lemma GetsThroughAlike<R(!new), S>(
      ids: map<string, Id>, rows: map<(Id, R), S>, es: seq<ConfigExport<R, S>>, ids1: map<string, Id>,
      rows1: map<(Id, R), S>)
    requires SamePattern(ids, ids1)
    ensures Replaced(ids, rows, es).Ok? <==> Replaced(ids1, rows1, es).Ok?
  {
    ReplacedExactly(ids, rows, es);
    ReplacedExactly(ids1, rows1, es);
    forall j: nat | j < |es|
      ensures FindsRowFree(ids, es, j) <==> FindsRowFree(ids1, es, j)
    {
      forall i: nat | i < j
        ensures Collides(ids, es, i, j) <==> Collides(ids1, es, i, j)
      {
        CollidesAlike(ids, ids1, es, i, j);
      }
    }
  }

  /** Whatever the tables held: where a configured name leads, both runs leave the same. */
  lemma RowsAlike<R(!new), S>(
      ids: map<string, Id>, rows: map<(Id, R), S>, es: seq<ConfigExport<R, S>>,
      ids1: map<string, Id>, rows1: map<(Id, R), S>, e: ConfigExport<R, S>, r: R)
    requires SamePattern(ids, ids1) && Replaced(ids, rows, es).Ok? && Replaced(ids1, rows1, es).Ok?
    requires e in es && e.device in ids
    ensures Get(Replaced(ids1, rows1, es).value.rows, (ids1[e.device], r))
         == Get(Replaced(ids, rows, es).value.rows, (ids[e.device], r))
  {
    var k, k1 := (ids[e.device], r), (ids1[e.device], r);
    assert Reaches(ids, e, k.0) && Reaches(ids1, e, k1.0);
    ReplacedRows(ids, rows, es, k);
    ReplacedRows(ids1, rows1, es, k1);
    forall n: nat | n < |es|
      ensures Stands(ids, es, n, k) <==> Stands(ids1, es, n, k1)
    {
      StandsAlike(ids, ids1, es, n, e.device, r);
    }
    if SomeStands(ids, es, k) {
      var n: nat :| n < |es| && Stands(ids, es, n, k);
      assert Stands(ids1, es, n, k1);
    }
  }

  /** Every configured name leads to the same configs either way. */
  ghost predicate LeadAlike<R(!new), S>(
      ids: map<string, Id>, ids1: map<string, Id>, es: seq<ConfigExport<R, S>>, rows: map<(Id, R), S>)
    requires ids.Keys == ids1.Keys
  {
    forall e <- es :: e.device in ids ==> SameRows(rows, ids[e.device], ids1[e.device])
  }

  /**
   Replacing again gets through, and changes nothing exactly when every configured
   name leads to the same configs as before.
   */
  lemma ReplaceAgainExactly<R(!new), S>(
      ids: map<string, Id>, rows: map<(Id, R), S>, es: seq<ConfigExport<R, S>>, ids1: map<string, Id>)
    requires SamePattern(ids, ids1) && Replaced(ids, rows, es).Ok?
    ensures var once := Replaced(ids, rows, es).value.rows;
      && Replaced(ids1, once, es).Ok?
      && (Replaced(ids1, once, es).value.rows == once <==> LeadAlike(ids, ids1, es, once))
  {
    var once := Replaced(ids, rows, es).value.rows;
    GetsThroughAlike(ids, rows, es, ids1, once);
    var twice := Replaced(ids1, once, es).value.rows;
    forall e, r: R | e in es && e.device in ids
      ensures Get(twice, (ids1[e.device], r)) == Get(once, (ids[e.device], r))
    {
      RowsAlike(ids, rows, es, ids1, once, e, r);
    }
    if LeadAlike(ids, ids1, es, once) {
      forall k: (Id, R)
        ensures Get(twice, k) == Get(once, k)
      {
        if Touched(ids1, es, k.0) {
          var e :| e in es && Reaches(ids1, e, k.0);
          assert SameRows(once, ids[e.device], ids1[e.device]);
          assert k == (ids1[e.device], k.1);
        } else {
          UntouchedKeepRows(ids1, once, es, k);
        }
      }
      SameByGet(twice, once);
    }
  }

  /** Replacing twice is replacing once, whatever the configs and the names lead to. */
  lemma ReplaceTwice<R(!new), S>(ids: map<string, Id>, rows: map<(Id, R), S>, es: seq<ConfigExport<R, S>>)
    requires Replaced(ids, rows, es).Ok?
    ensures Replaced(ids, Replaced(ids, rows, es).value.rows, es) == Replaced(ids, rows, es)
  {
    var once := Replaced(ids, rows, es).value;
    ReplaceAgainExactly(ids, rows, es, ids);
    ClearedAreTouched(ids, rows, es);
    ClearedAreTouched(ids, once.rows, es);
    assert Replaced(ids, once.rows, es).value.cleared == once.cleared;
  }

  /** A single config takes over its device. */
  lemma OneConfigReplaces<R(!new), S>(ids: map<string, Id>, rows: map<(Id, R), S>, e: ConfigExport<R, S>)
    requires e.device in ids
    ensures var r, d := Replaced(ids, rows, [e]), ids[e.device];
      r.Ok? && r.value.rows == Without(rows, d)[(d, e.item) := e.spec]
  {
    assert [e][..0] == [];
  }

  // --- When names lead to different devices ---

  /** No two names among the configs lead to one device. */
  ghost predicate Separate<R, S>(ids: map<string, Id>, es: seq<ConfigExport<R, S>>) {
    forall d <- es, e <- es ::
      (d.device in ids && e.device in ids && ids[d.device] == ids[e.device] ==> d.device == e.device)
  }

  /** Then nothing that landed is deleted again. */
  lemma SeparateNeverClears<R, S>(ids: map<string, Id>, es: seq<ConfigExport<R, S>>, n: nat, m: nat, d: Id)
    requires Separate(ids, es) && n < m < |es| && Reaches(ids, es[n], d)
    ensures !Clears(ids, es, m, d)
  {
    assert es[n] in es && es[m] in es;
  }

  lemma SeparateStands<R, S>(ids: map<string, Id>, es: seq<ConfigExport<R, S>>, n: nat, k: (Id, R))
    requires Separate(ids, es) && n < |es|
    ensures Stands(ids, es, n, k) <==> Targets(ids, es[n], k)
  {
    if Targets(ids, es[n], k) {
      forall m: nat | n < m < |es|
        ensures !Clears(ids, es, m, k.0)
      {
        SeparateNeverClears(ids, es, n, m, k.0);
      }
    }
  }

  /** A touched device then holds exactly the configs that reached it. */
  lemma SeparateRows<R(!new), S>(
      ids: map<string, Id>, rows: map<(Id, R), S>, es: seq<ConfigExport<R, S>>, k: (Id, R))
    requires Separate(ids, es) && Replaced(ids, rows, es).Ok? && Touched(ids, es, k.0)
    ensures var out := Replaced(ids, rows, es).value.rows;
      && (k in out <==> exists e :: e in es && Targets(ids, e, k))
      && (forall e <- es :: Targets(ids, e, k) ==> Get(out, k) == Some(e.spec))
  {
    ReplacedRows(ids, rows, es, k);
    forall n: nat | n < |es|
      ensures Stands(ids, es, n, k) <==> Targets(ids, es[n], k)
    {
      SeparateStands(ids, es, n, k);
    }
    forall e <- es | Targets(ids, e, k)
      ensures SomeStands(ids, es, k) && Get(Replaced(ids, rows, es).value.rows, k) == Some(e.spec)
    {
      var n :| 0 <= n < |es| && es[n] == e;
      assert Stands(ids, es, n, k);
    }
    if SomeStands(ids, es, k) {
      var n: nat :| n < |es| && Stands(ids, es, n, k);
      assert es[n] in es;
    }
  }

  /** No two configs land on one row. */
  ghost predicate TargetsDiffer<R, S>(ids: map<string, Id>, es: seq<ConfigExport<R, S>>) {
    forall i, j :: 0 <= i < j < |es| ==> !SameTarget(ids, es[i], es[j])
  }

  /** And the replacement gets through exactly when no two configs land on one row. */
  lemma SeparateExactly<R(!new), S>(ids: map<string, Id>, rows: map<(Id, R), S>, es: seq<ConfigExport<R, S>>)
    requires Separate(ids, es)
    ensures Replaced(ids, rows, es).Ok? <==> TargetsDiffer(ids, es)
  {
    ReplacedExactly(ids, rows, es);
    forall i: nat, j: nat | i < j < |es|
      ensures Collides(ids, es, i, j) <==> SameTarget(ids, es[i], es[j])
    {
      if SameTarget(ids, es[i], es[j]) {
        forall m: nat | i < m <= j
          ensures !Clears(ids, es, m, ids[es[j].device])
        {
          SeparateNeverClears(ids, es, i, m, ids[es[j].device]);
        }
      }
    }
    if NoneCollide(ids, es) {
      forall i: nat, j: nat | i < j < |es|
        ensures !SameTarget(ids, es[i], es[j])
      {
        assert FindsRowFree(ids, es, j);
      }
    }
  }

  // --- Publish configs: one row per device and broker, upserted ---

  datatype PublishExport<S> = PublishExport(device: string, broker: string, spec: S)

  /** A config whose device or broker is unknown is dropped. */
  function Published<S>(
      devices: map<string, Id>, brokers: map<string, Id>, rows: map<(Id, Id), S>, es: seq<PublishExport<S>>)
      : map<(Id, Id), S>
  {
    if es == [] then rows
    else
      var before := Published(devices, brokers, rows, es[..|es| - 1]);
      var e := es[|es| - 1];
      if e.device in devices && e.broker in brokers then before[(devices[e.device], brokers[e.broker]) := e.spec]
      else before
  }

  predicate Links<S>(devices: map<string, Id>, brokers: map<string, Id>, e: PublishExport<S>, k: (Id, Id)) {
    e.device in devices && e.broker in brokers && (devices[e.device], brokers[e.broker]) == k
  }

  /** The last config for a pair of device and broker. */
  function LastSpec<S>(devices: map<string, Id>, brokers: map<string, Id>, es: seq<PublishExport<S>>, k: (Id, Id))
      : Option<S>
    decreases |es|
  {
    if es == [] then None
    else if Links(devices, brokers, es[|es| - 1], k) then Some(es[|es| - 1].spec)
    else LastSpec(devices, brokers, es[..|es| - 1], k)
  }

  /** Each pair holds its last config, or what it held before. */
  lemma {:induction false} PublishedRows<S>(
      devices: map<string, Id>, brokers: map<string, Id>, rows: map<(Id, Id), S>, es: seq<PublishExport<S>>,
      k: (Id, Id))
    ensures Get(Published(devices, brokers, rows, es), k) ==
      if LastSpec(devices, brokers, es, k).Some? then LastSpec(devices, brokers, es, k) else Get(rows, k)
    decreases |es|
  {
    if es != [] {
      PublishedRows(devices, brokers, rows, es[..|es| - 1], k);
    }
  }

  lemma {:induction false} LastSpecUnlinked<S>(
      devices: map<string, Id>, brokers: map<string, Id>, es: seq<PublishExport<S>>, k: (Id, Id))
    requires forall e <- es :: !Links(devices, brokers, e, k)
    ensures LastSpec(devices, brokers, es, k).None?
    decreases |es|
  {
    if es != [] {
      assert es[|es| - 1] in es;
      LastSpecUnlinked(devices, brokers, es[..|es| - 1], k);
    }
  }

  lemma {:induction false} LastSpecIsLinked<S>(
      devices: map<string, Id>, brokers: map<string, Id>, es: seq<PublishExport<S>>, k: (Id, Id)) returns (n: nat)
    requires LastSpec(devices, brokers, es, k).Some?
    ensures n < |es| && Links(devices, brokers, es[n], k) && LastSpec(devices, brokers, es, k) == Some(es[n].spec)
    ensures forall m :: n < m < |es| ==> !Links(devices, brokers, es[m], k)
    decreases |es|
  {
    if Links(devices, brokers, es[|es| - 1], k) {
      n := |es| - 1;
    } else {
      n := LastSpecIsLinked(devices, brokers, es[..|es| - 1], k);
    }
  }

  lemma {:induction false} LastSpecAt<S>(
      devices: map<string, Id>, brokers: map<string, Id>, es: seq<PublishExport<S>>, k: (Id, Id), n: nat)
    requires n < |es| && Links(devices, brokers, es[n], k)
    requires forall m :: n < m < |es| ==> !Links(devices, brokers, es[m], k)
    ensures LastSpec(devices, brokers, es, k) == Some(es[n].spec)
    decreases |es|
  {
    if n < |es| - 1 {
      assert !Links(devices, brokers, es[|es| - 1], k);
      LastSpecAt(devices, brokers, es[..|es| - 1], k, n);
    }
  }

  /** Every pair some config is for holds its last one. */
  ghost predicate LastSpecsHeld<S>(
      devices: map<string, Id>, brokers: map<string, Id>, rows: map<(Id, Id), S>, es: seq<PublishExport<S>>)
  {
    forall k: (Id, Id) | LastSpec(devices, brokers, es, k).Some? ::
      Get(rows, k) == LastSpec(devices, brokers, es, k)
  }

  /** The table is left as it was exactly when the last config of every pair is the one it holds. */
  lemma PublishedUnchangedExactly<S>(
      devices: map<string, Id>, brokers: map<string, Id>, rows: map<(Id, Id), S>, es: seq<PublishExport<S>>)
    ensures Published(devices, brokers, rows, es) == rows <==>
      LastSpecsHeld(devices, brokers, rows, es)
  {
    var out := Published(devices, brokers, rows, es);
    forall k: (Id, Id)
      ensures Get(out, k) ==
        if LastSpec(devices, brokers, es, k).Some? then LastSpec(devices, brokers, es, k) else Get(rows, k)
    {
      PublishedRows(devices, brokers, rows, es, k);
    }
    if LastSpecsHeld(devices, brokers, rows, es) {
      SameByGet(out, rows);
    }
  }

  lemma {:induction false} LinkedHasLastSpec<S>(
      devices: map<string, Id>, brokers: map<string, Id>, es: seq<PublishExport<S>>, e: PublishExport<S>, k: (Id, Id))
    requires e in es && Links(devices, brokers, e, k)
    ensures LastSpec(devices, brokers, es, k).Some?
    decreases |es|
  {
    if !Links(devices, brokers, es[|es| - 1], k) {
      LinkedHasLastSpec(devices, brokers, es[..|es| - 1], e, k);
    }
  }

  lemma {:induction false} LastSpecAlike<S>(
      devices: map<string, Id>, devices1: map<string, Id>, brokers: map<string, Id>, es: seq<PublishExport<S>>,
      name: string, b: Id)
    requires SamePattern(devices, devices1) && name in devices
    ensures LastSpec(devices, brokers, es, (devices[name], b)) == LastSpec(devices1, brokers, es, (devices1[name], b))
    decreases |es|
  {
    if es != [] {
      LastSpecAlike(devices, devices1, brokers, es[..|es| - 1], name, b);
    }
  }

  /** Every published name leads to the same publish config either way. */
  ghost predicate PublishAlike<S>(
      devices: map<string, Id>, devices1: map<string, Id>, brokers: map<string, Id>, es: seq<PublishExport<S>>,
      rows: map<(Id, Id), S>)
    requires devices.Keys == devices1.Keys
  {
    forall e <- es :: e.device in devices && e.broker in brokers ==>
      Get(rows, (devices[e.device], brokers[e.broker])) == Get(rows, (devices1[e.device], brokers[e.broker]))
  }

  /** What the second run writes where a published name leads now is what the first left where it led. */
  lemma SpecAlike<S>(
      devices: map<string, Id>, brokers: map<string, Id>, rows: map<(Id, Id), S>, es: seq<PublishExport<S>>,
      devices1: map<string, Id>, e: PublishExport<S>)
    requires SamePattern(devices, devices1) && e in es && e.device in devices && e.broker in brokers
    ensures var b := brokers[e.broker];
      && LastSpec(devices1, brokers, es, (devices1[e.device], b)).Some?
      && LastSpec(devices1, brokers, es, (devices1[e.device], b))
           == Get(Published(devices, brokers, rows, es), (devices[e.device], b))
  {
    var b := brokers[e.broker];
    LastSpecAlike(devices, devices1, brokers, es, e.device, b);
    LinkedHasLastSpec(devices, brokers, es, e, (devices[e.device], b));
    PublishedRows(devices, brokers, rows, es, (devices[e.device], b));
  }

  /** Publishing again changes nothing exactly when every published name leads to the same publish config. */
  lemma PublishAgainExactly<S>(
      devices: map<string, Id>, brokers: map<string, Id>, rows: map<(Id, Id), S>, es: seq<PublishExport<S>>,
      devices1: map<string, Id>)
    requires SamePattern(devices, devices1)
    ensures var once := Published(devices, brokers, rows, es);
      Published(devices1, brokers, once, es) == once <==> PublishAlike(devices, devices1, brokers, es, once)
  {
    var once := Published(devices, brokers, rows, es);
    PublishedUnchangedExactly(devices1, brokers, once, es);
    forall e <- es | e.device in devices && e.broker in brokers
      ensures var b := brokers[e.broker];
        && LastSpec(devices1, brokers, es, (devices1[e.device], b)).Some?
        && LastSpec(devices1, brokers, es, (devices1[e.device], b)) == Get(once, (devices[e.device], b))
    {
      SpecAlike(devices, brokers, rows, es, devices1, e);
    }
    if PublishAlike(devices, devices1, brokers, es, once) {
      forall k: (Id, Id) | LastSpec(devices1, brokers, es, k).Some?
        ensures Get(once, k) == LastSpec(devices1, brokers, es, k)
      {
        var n := LastSpecIsLinked(devices1, brokers, es, k);
        assert es[n] in es && k == (devices1[es[n].device], brokers[es[n].broker]);
      }
    }
  }

  /** Publishing twice is publishing once. */
  lemma PublishTwice<S>(
      devices: map<string, Id>, brokers: map<string, Id>, rows: map<(Id, Id), S>, es: seq<PublishExport<S>>)
    ensures var once := Published(devices, brokers, rows, es); Published(devices, brokers, once, es) == once
  {
    PublishAgainExactly(devices, brokers, rows, es, devices);
  }
}
