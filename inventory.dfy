/** The inventory ledger: the product catalog, the five product-to-count
    tables, the session date, the derivation of final stock and the
    application of edited form values to one table. */
module Inventory {
  import opened SeqFacts
  import opened PyStr

  predicate Distinct(s: seq<string>) {
    forall i, j :: 0 <= i < j < |s| ==> s[i] != s[j]
  }

  /** A Python dict from product name to count: its keys in insertion
      order, and the values. */
  datatype Table = Table(order: seq<string>, values: map<string, int>) {

    ghost predicate Valid() {
      Distinct(order) && forall k :: k in values <==> k in order
    }

    /** `d[k] = v`: an existing key keeps its place, a new key goes last. */
    function Set(k: string, v: int): (r: Table)
      ensures Valid() ==> r.Valid()
      ensures r.values == values[k := v]
      ensures Valid() && k in values ==> r.order == order
      ensures Valid() && k !in values ==> r.order == order + [k]
    {
      if k in values then Table(order, values[k := v]) else Table(order + [k], values[k := v])
    }
  }

  /** Every key of `keys` has a value in `vals`. */
  ghost predicate Keyed(keys: seq<string>, vals: map<string, int>) {
    forall i :: 0 <= i < |keys| ==> keys[i] in vals
  }

  /** Every key in a table's order has a value. */
  ghost predicate Indexed(t: Table) {
    Keyed(t.order, t.values)
  }

  /** `d[k] = vals[k]` for each key of `keys` in turn. */
  function SetAll(t: Table, keys: seq<string>, vals: map<string, int>): Table
    requires Keyed(keys, vals)
  {
    if keys == [] then t
    else SetAll(t, keys[..|keys| - 1], vals).Set(keys[|keys| - 1], vals[keys[|keys| - 1]])
  }

  /** After writing `keys`, the table holds its old keys and `keys`; a
      written key has its new value, any other its old one. */
  lemma {:induction false} SetAllValues(t: Table, keys: seq<string>, vals: map<string, int>)
    requires Keyed(keys, vals)
    ensures forall k :: k in SetAll(t, keys, vals).values <==> k in t.values || k in keys
    ensures forall k :: k in SetAll(t, keys, vals).values ==>
      SetAll(t, keys, vals).values[k] == if k in keys then vals[k] else t.values[k]
  {
    if keys != [] {
      var n := |keys| - 1;
      var front := keys[..n];
      SetAllValues(t, front, vals);
      assert keys == front + [keys[n]];
    }
  }

  /** Writing distinct keys that extend the table's order (or are a prefix
      of it) leaves the order as the longer of the two. */
  lemma {:induction false} SetAllOrder(t: Table, keys: seq<string>, vals: map<string, int>)
    requires Keyed(keys, vals)
    requires t.Valid() && Distinct(keys) && (t.order <= keys || keys <= t.order)
    ensures SetAll(t, keys, vals).Valid()
    ensures SetAll(t, keys, vals).order == if |keys| <= |t.order| then t.order else keys
  {
    if keys != [] {
      DropLast(t.order, keys);
      SetAllOrder(t, keys[..|keys| - 1], vals);
      SetAllOrderStep(t, keys, vals);
    }
  }

  lemma SetAllOrderStep(t: Table, keys: seq<string>, vals: map<string, int>)
    requires Keyed(keys, vals)
    requires t.Valid() && Distinct(keys) && (t.order <= keys || keys <= t.order) && keys != []
    requires var r := SetAll(t, keys[..|keys| - 1], vals);
      r.Valid() && r.order == if |keys| - 1 <= |t.order| then t.order else keys[..|keys| - 1]
    ensures SetAll(t, keys, vals).Valid()
    ensures SetAll(t, keys, vals).order == if |keys| <= |t.order| then t.order else keys
  {
    var n := |keys| - 1;
    var r := SetAll(t, keys[..n], vals);
    SetAllHas(t, keys[..n], vals, keys[n]);
    if |keys| <= |t.order| {
      KnownKey(t, keys);
    } else {
      NewKey(t, keys);
      PrefixOfLonger(t.order, keys);
      DropSnoc(keys);
      AppendNew(r, keys[..n], keys[n], vals[keys[n]]);
    }
  }

  /** A prefix of `keys` that is one shorter is all of `keys` but the last. */
  lemma PrefixOfLonger(p: seq<string>, keys: seq<string>)
    requires p <= keys && |keys| > |p|
    ensures |keys| - 1 <= |p| ==> p == keys[..|keys| - 1]
  {
  }

  /** Writing a key a valid table does not hold appends it to the order. */
  lemma AppendNew(r: Table, front: seq<string>, k: string, v: int)
    requires r.Valid() && r.order == front && k !in r.values
    ensures r.Set(k, v).Valid() && r.Set(k, v).order == front + [k]
  {
  }

  lemma SetAllHas(t: Table, keys: seq<string>, vals: map<string, int>, x: string)
    requires Keyed(keys, vals)
    ensures x in SetAll(t, keys, vals).values <==> x in t.values || x in keys
  {
    SetAllValues(t, keys, vals);
  }

  lemma DropLast(p: seq<string>, keys: seq<string>)
    requires keys != [] && Distinct(keys) && (p <= keys || keys <= p)
    ensures Distinct(keys[..|keys| - 1])
    ensures p <= keys[..|keys| - 1] || keys[..|keys| - 1] <= p
  {
  }

  /** The last of keys that do not go past the table's order is already a key. */
  lemma KnownKey(t: Table, keys: seq<string>)
    requires t.Valid() && keys != [] && |keys| <= |t.order| && (t.order <= keys || keys <= t.order)
    ensures keys[|keys| - 1] in t.values
  {
    assert keys[|keys| - 1] == t.order[|keys| - 1];
  }

  /** The last of distinct keys that go past the table's order is new. */
  lemma NewKey(t: Table, keys: seq<string>)
    requires t.Valid() && Distinct(keys) && |keys| > |t.order| && t.order <= keys
    ensures keys[|keys| - 1] !in t.values && keys[|keys| - 1] !in keys[..|keys| - 1]
  {
  }

  /** Writing every key of `u` into a table whose order is a prefix of
      `u`'s rebuilds `u` exactly. */
  lemma SetAllRebuilds(t: Table, u: Table)
    requires t.Valid() && u.Valid() && t.order <= u.order
    ensures Keyed(u.order, u.values)
    ensures SetAll(t, u.order, u.values) == u
  {
    SetAllOrder(t, u.order, u.values);
    RebuildValues(t, u);
  }

  lemma RebuildValues(t: Table, u: Table)
    requires t.Valid() && u.Valid() && t.order <= u.order
    ensures Keyed(u.order, u.values)
    ensures SetAll(t, u.order, u.values).values == u.values
  {
    SetAllValues(t, u.order, u.values);
    forall k | k in t.values ensures k in u.values {
      var j :| 0 <= j < |t.order| && t.order[j] == k;
      assert u.order[j] == k;
    }
  }

  /** `products.copy()` of the catalog dict: every product mapped to 0, in catalog order. */
  function Zeros(products: seq<string>): (t: Table)
    ensures Distinct(products) ==> t.Valid()
    ensures t.order == products
    ensures forall p :: p in t.values <==> p in products
    ensures forall p :: p in t.values ==> t.values[p] == 0
  {
    Table(products, map p | p in products :: 0)
  }

  /** The four tables a user edits. */
  datatype Kind = Initial | Production | Shipment | Returns

  /** The ledger's state: the session date and the five tables. */
  datatype Snapshot = Snapshot(
    date: string,
    initial: Table,
    production: Table,
    shipment: Table,
    returned: Table,  // `returns` in the source; a keyword here
    final: Table)
  {
    function Get(k: Kind): Table {
      match k
      case Initial => initial
      case Production => production
      case Shipment => shipment
      case Returns => returned
    }

    /** The ledger with one input table replaced and nothing else changed. */
    function With(k: Kind, t: Table): (r: Snapshot)
      ensures r.Get(k) == t
      ensures forall j :: j != k ==> r.Get(j) == Get(j)
      ensures r.date == date && r.final == final
    {
      match k
      case Initial => this.(initial := t)
      case Production => this.(production := t)
      case Shipment => this.(shipment := t)
      case Returns => this.(returned := t)
    }
  }

  /** An input table as the ledger keeps it: a valid dict whose keys start
      with the whole catalog in catalog order (a load may append more). */
  ghost predicate HoldsCatalog(t: Table, products: seq<string>) {
    t.Valid() && products <= t.order
  }

  /** What holds of the ledger from construction on. */
  ghost predicate WellFormed(s: Snapshot, products: seq<string>) {
    && Distinct(products)
    && HoldsCatalog(s.initial, products)
    && HoldsCatalog(s.production, products)
    && HoldsCatalog(s.shipment, products)
    && HoldsCatalog(s.returned, products)
    && s.final.Valid() && s.final.order == products
  }

  /** Replacing an input table by one that still holds the catalog keeps the ledger well formed. */
  lemma WithKeepsWellFormed(s: Snapshot, products: seq<string>, k: Kind, t: Table)
    requires WellFormed(s, products)
    requires t.Valid() && s.Get(k).order <= t.order
    ensures WellFormed(s.With(k, t), products)
  {
    assert products <= s.Get(k).order;
  }

  lemma WithWith(s: Snapshot, k: Kind, t: Table, u: Table)
    ensures s.With(k, t).With(k, u) == s.With(k, u)
  {
  }

  lemma WithSame(s: Snapshot, k: Kind)
    ensures s.With(k, s.Get(k)) == s
  {
  }

  /** Every catalog product has a count in each input table. */
  ghost predicate Covers(s: Snapshot, products: seq<string>) {
    forall p :: p in products ==>
      p in s.initial.values && p in s.production.values &&
      p in s.shipment.values && p in s.returned.values
  }

  lemma WellFormedCovers(s: Snapshot, products: seq<string>)
    requires WellFormed(s, products)
    ensures Covers(s, products)
  {
    forall p | p in products
      ensures p in s.initial.values && p in s.production.values
      ensures p in s.shipment.values && p in s.returned.values
    {
      var i :| 0 <= i < |products| && products[i] == p;
      assert s.initial.order[i] == p && s.production.order[i] == p;
      assert s.shipment.order[i] == p && s.returned.order[i] == p;
    }
  }

  function FinalValue(s: Snapshot, p: string): int
    requires p in s.initial.values && p in s.production.values
    requires p in s.shipment.values && p in s.returned.values
  {
    s.initial.values[p] + s.production.values[p] + s.returned.values[p] - s.shipment.values[p]
  }

  /** The ledger invariant: final stock holds exactly the catalog, and for
      each product is initial + production + returns - shipment. */
  ghost predicate Consistent(s: Snapshot, products: seq<string>) {
    && Covers(s, products)
    && s.final.order == products
    && (forall p :: p in s.final.values <==> p in products)
    && forall p :: p in products ==> s.final.values[p] == FinalValue(s, p)
  }

  /** The ledger a run starts from: every count 0 (Main.py:29-34). */
  function Fresh(products: seq<string>, date: string): (s: Snapshot)
    requires Distinct(products)
    ensures WellFormed(s, products) && Consistent(s, products)
    ensures s.date == date
  {
    Snapshot(date, Zeros(products), Zeros(products), Zeros(products), Zeros(products), Zeros(products))
  }

  /** `calculate_final_inventory`: final stock re-derived for every catalog
      product; the date and the four input tables are left as they are. */
  function Recompute(s: Snapshot, products: seq<string>): (r: Snapshot)
    requires Covers(s, products)
    ensures Consistent(r, products)
    ensures r == s.(final := r.final)
    ensures WellFormed(s, products) ==> WellFormed(r, products)
  {
    s.(final := Table(products, map p | p in products :: FinalValue(s, p)))
  }

  /** Re-deriving a ledger that already satisfies the invariant changes nothing. */
  lemma RecomputeConsistent(s: Snapshot, products: seq<string>)
    requires Consistent(s, products)
    ensures Recompute(s, products) == s
  {
    var r := Recompute(s, products);
    assert r.final.values == s.final.values;
  }

  /** Final stock is derived from the four input tables alone: whatever
      final stock a ledger held before, re-deriving gives the same ledger. */
  lemma RecomputeIgnoresFinal(s: Snapshot, products: seq<string>, old_final: Table)
    requires Covers(s, products)
    ensures Recompute(s.(final := old_final), products) == Recompute(s, products)
  {
    var a, b := Recompute(s.(final := old_final), products), Recompute(s, products);
    assert a.final.values == b.final.values;
  }

  /** `calculate_final_inventory` twice is `calculate_final_inventory` once. */
  lemma RecomputeIdempotent(s: Snapshot, products: seq<string>)
    requires Covers(s, products)
    ensures Recompute(Recompute(s, products), products) == Recompute(s, products)
  {
    RecomputeConsistent(Recompute(s, products), products);
  }

  // ---- applying edited form values (save_input_data) ----

  /** The form as `save_input_data` sees it: each product with what its
      input box asks for, in the order the boxes were laid out. */
  function ReadForm(fields: seq<(string, string)>): (acts: seq<(string, FieldAction)>)
    ensures |acts| == |fields|
    ensures forall i :: 0 <= i < |fields| ==> acts[i].0 == fields[i].0
    ensures forall i :: 0 <= i < |fields| ==>
      (acts[i].1 == Skip <==> forall j :: 0 <= j < |fields[i].1| ==> IsSpace(fields[i].1[j]))
    ensures forall i :: 0 <= i < |fields| && acts[i].1 != Skip ==>
      acts[i].1 == (match ParseStripped(Strip(fields[i].1)) case Some(n) => Write(n) case None => Bad)
  {
    FieldsMeaning(fields);
    seq(|fields|, i requires 0 <= i < |fields| => (fields[i].0, ReadField(fields[i].1)))
  }

  /** What every box of the form means, one box at a time. */
  lemma FieldsMeaning(fields: seq<(string, string)>)
    ensures forall i :: 0 <= i < |fields| ==>
      (ReadField(fields[i].1) == Skip <==> forall j :: 0 <= j < |fields[i].1| ==> IsSpace(fields[i].1[j]))
    ensures forall i :: 0 <= i < |fields| && ReadField(fields[i].1) != Skip ==>
      ReadField(fields[i].1) == (match ParseStripped(Strip(fields[i].1)) case Some(n) => Write(n) case None => Bad)
  {
    forall i | 0 <= i < |fields| {
      ReadFieldMeaning(fields[i].1);
    }
  }

  /** One input box applied to the table; false when it raised ValueError. */
  function ApplyField(t: Table, act: (string, FieldAction)): (r: (Table, bool))
    ensures r.1 <==> !act.1.Bad?
    ensures t.Valid() ==> r.0.Valid()
    ensures t.order <= r.0.order
    ensures t.values.Keys <= r.0.values.Keys
  {
    match act.1
    case Skip => (t, true)
    case Write(n) => (t.Set(act.0, n), true)
    case Bad => (t, false)
  }

  /** Applies the input boxes in order, writing into the table as it goes;
      the flag turns false at the first box that raises ValueError, and no
      box after it is looked at. */
  function ApplyFields(t: Table, acts: seq<(string, FieldAction)>): (r: (Table, bool))
    ensures t.Valid() ==> r.0.Valid()
    ensures t.order <= r.0.order
    ensures t.values.Keys <= r.0.values.Keys
  {
    if acts == [] then (t, true)
    else
      var prev := ApplyFields(t, acts[..|acts| - 1]);
      if !prev.1 then prev else ApplyField(prev.0, acts[|acts| - 1])
  }

  /** Every input box is blank or holds an integer. */
  ghost predicate Accepted(acts: seq<(string, FieldAction)>) {
    forall i :: 0 <= i < |acts| ==> !acts[i].1.Bad?
  }

  /** An edit succeeds exactly when no input box raises ValueError. */
  lemma {:induction false} ApplyFieldsOk(t: Table, acts: seq<(string, FieldAction)>)
    ensures ApplyFields(t, acts).1 <==> Accepted(acts)
  {
    if acts != [] {
      var n := |acts| - 1;
      var front := acts[..n];
      ApplyFieldsOk(t, front);
      if Accepted(acts) {
        assert Accepted(front) by {
          forall i | 0 <= i < n ensures !front[i].1.Bad? {
            assert front[i] == acts[i];
          }
        }
      }
      if ApplyFields(t, acts).1 {
        forall i | 0 <= i < |acts| ensures !acts[i].1.Bad? {
          if i < n { assert front[i] == acts[i]; }
        }
      }
    }
  }

  /** Once a box has failed, later boxes change nothing. */
  lemma {:induction false} ApplyFieldsSticky(t: Table, acts: seq<(string, FieldAction)>, more: seq<(string, FieldAction)>)
    requires !ApplyFields(t, acts).1
    ensures ApplyFields(t, acts + more) == ApplyFields(t, acts)
  {
    if more == [] {
      assert acts + more == acts;
    } else {
      var front := more[..|more| - 1];
      ApplyFieldsSticky(t, acts, front);
      AppendFront(acts, more);
    }
  }

  /** Edits are not atomic: when box `i` is the first that raises
      ValueError, the boxes before it stay written and none after it is. */
  lemma ApplyFieldsStopsAtBad(t: Table, acts: seq<(string, FieldAction)>, i: nat)
    requires i < |acts| && acts[i].1.Bad?
    requires Accepted(acts[..i])
    ensures ApplyFields(t, acts[..i]).1
    ensures ApplyFields(t, acts) == (ApplyFields(t, acts[..i]).0, false)
  {
    ApplyFieldsOk(t, acts[..i]);
    TakeTake(acts, i + 1, i);
    ApplyFieldsSticky(t, acts[..i + 1], acts[i + 1..]);
    TakeDrop(acts, i + 1);
  }

  /** No input box that is reached writes a count for `k`: every box of `k`
      holding an integer comes after a box that raised ValueError. */
  ghost predicate NotWritten(acts: seq<(string, FieldAction)>, k: string) {
    forall i :: 0 <= i < |acts| && acts[i].0 == k && acts[i].1.Write? ==>
      exists j :: 0 <= j < i && acts[j].1.Bad?
  }

  /** Counts that no box writes, because their boxes are blank or come after
      the failing box, stay as they were, whether the edit succeeds or not. */
  lemma {:induction false} ApplyFieldsUntouched(t: Table, acts: seq<(string, FieldAction)>, k: string)
    requires NotWritten(acts, k)
    ensures k in ApplyFields(t, acts).0.values <==> k in t.values
    ensures k in t.values ==> ApplyFields(t, acts).0.values[k] == t.values[k]
  {
    if acts != [] {
      var n := |acts| - 1;
      var front := acts[..n];
      assert NotWritten(front, k) by {
        forall i | 0 <= i < n && front[i].0 == k && front[i].1.Write?
          ensures exists j :: 0 <= j < i && front[j].1.Bad?
        {
          assert front[i] == acts[i];
          var j :| 0 <= j < i && acts[j].1.Bad?;
          assert front[j] == acts[j];
        }
      }
      ApplyFieldsUntouched(t, front, k);
      if acts[n].0 == k && acts[n].1.Write? {
        var j :| 0 <= j < n && acts[j].1.Bad?;
        assert front[j] == acts[j];
        ApplyFieldsOk(t, front);
      }
    }
  }

  ghost predicate DistinctProducts(acts: seq<(string, FieldAction)>) {
    forall i, j :: 0 <= i < j < |acts| ==> acts[i].0 != acts[j].0
  }

  /** After a successful edit, a box holding an integer has written it
      under its product (the form has one box per product). */
  lemma {:induction false} ApplyFieldsWritten(t: Table, acts: seq<(string, FieldAction)>, i: nat)
    requires DistinctProducts(acts)
    requires ApplyFields(t, acts).1
    requires i < |acts| && acts[i].1.Write?
    ensures acts[i].0 in ApplyFields(t, acts).0.values
    ensures ApplyFields(t, acts).0.values[acts[i].0] == acts[i].1.n
  {
    var n := |acts| - 1;
    var front := acts[..n];
    if i < n {
      assert front[i] == acts[i];
      assert DistinctProducts(front) by {
        forall a, b | 0 <= a < b < n ensures front[a].0 != front[b].0 {
          assert front[a] == acts[a] && front[b] == acts[b];
        }
      }
      ApplyFieldsWritten(t, front, i);
      assert acts[n].0 != acts[i].0;
    }
  }

  /** The boxes written into input table `which`, final stock not yet
      looked at: the ledger they leave and whether every box went through. */
  function Entered(s: Snapshot, which: Kind, acts: seq<(string, FieldAction)>): (Snapshot, bool) {
    var applied := ApplyFields(s.Get(which), acts);
    (s.With(which, applied.0), applied.1)
  }

  /** `save_input_data` for one input table, given what its input boxes ask
      for (`ReadForm`): the new ledger and whether the success message is
      shown (false: the "numbers only" message). */
  function Edit(s: Snapshot, products: seq<string>, which: Kind, acts: seq<(string, FieldAction)>): (r: (Snapshot, bool))
    requires WellFormed(s, products)
    ensures WellFormed(r.0, products)
  {
    var entered := Entered(s, which, acts);
    WithKeepsWellFormed(s, products, which, ApplyFields(s.Get(which), acts).0);
    WellFormedCovers(entered.0, products);
    if entered.1 then (Recompute(entered.0, products), true) else entered
  }

  /** An edit reports success exactly when every box is blank or an integer. */
  lemma EditSucceedsIff(s: Snapshot, products: seq<string>, which: Kind, acts: seq<(string, FieldAction)>)
    requires WellFormed(s, products)
    ensures Edit(s, products, which, acts).1 <==> Accepted(acts)
  {
    ApplyFieldsOk(s.Get(which), acts);
  }

  /** An edit writes only the table it was opened on (and final stock):
      the date and the other three input tables stay as they were. */
  lemma EditFrame(s: Snapshot, products: seq<string>, which: Kind, acts: seq<(string, FieldAction)>)
    requires WellFormed(s, products)
    ensures Edit(s, products, which, acts).0.date == s.date
    ensures forall k :: k != which ==> Edit(s, products, which, acts).0.Get(k) == s.Get(k)
    ensures Edit(s, products, which, acts).0.Get(which) == ApplyFields(s.Get(which), acts).0
  {
  }

  /** After a successful edit the ledger invariant holds again; after a
      failed one final stock is left as it was before the edit. */
  lemma EditFinal(s: Snapshot, products: seq<string>, which: Kind, acts: seq<(string, FieldAction)>)
    requires WellFormed(s, products)
    ensures Edit(s, products, which, acts).1 ==> Consistent(Edit(s, products, which, acts).0, products)
    ensures !Edit(s, products, which, acts).1 ==> Edit(s, products, which, acts).0.final == s.final
  {
  }
}
