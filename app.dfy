/** The application object: the catalog, the session date and the five
    tables it keeps as fields and updates in place. Each method is proved
    against the ledger functions of `Inventory` and `Persistence` through
    `State()`, the ledger the fields currently hold. */
module App {
  import opened SeqFacts
  import opened PyStr
  import opened Inventory
  import opened Persistence
  import opened Report

  /** The six products of the menu, in the order they are listed. */
  const Catalog: seq<string> := [
    "کباب کوبیده", "فیله زعفرانی", "فیله ماستی", "با استخوان", "شیشلیک", "برگ"
  ]

  lemma CatalogDistinct()
    ensures Distinct(Catalog)
  {
  }

  /** Final stock part way through `calculate_final_inventory`: the keys
      are still the catalog's, in catalog order, and the first `i` catalog
      products hold their derived value. */
  ghost predicate FinalUpTo(s: Snapshot, products: seq<string>, t: Table, i: nat) {
    && i <= |products|
    && Covers(s, products)
    && t.order == products
    && (forall p :: p in t.values <==> p in products)
    && forall p :: p in products[..i] ==> t.values[p] == FinalValue(s, p)
  }

  /** What `calculate_final_inventory` needs of the ledger: every catalog
      product has a count in each input table, and final stock has the
      catalog's keys in catalog order. */
  ghost predicate FinalReady(s: Snapshot, products: seq<string>) {
    && Covers(s, products)
    && s.final.order == products
    && (forall p :: p in s.final.values <==> p in products)
  }

  lemma ReadyFromWellFormed(s: Snapshot, products: seq<string>)
    requires WellFormed(s, products)
    ensures FinalReady(s, products)
  {
    WellFormedCovers(s, products);
  }

  /** The ledger an edit leaves before final stock is re-derived is well
      formed and ready for `calculate_final_inventory`. */
  lemma EditedReady(s: Snapshot, products: seq<string>, which: Kind, acts: seq<(string, FieldAction)>)
    requires WellFormed(s, products)
    ensures WellFormed(Entered(s, which, acts).0, products)
    ensures FinalReady(Entered(s, which, acts).0, products)
  {
    var t := ApplyFields(s.Get(which), acts).0;
    WithKeepsWellFormed(s, products, which, t);
    ReadyFromWellFormed(s.With(which, t), products);
  }

  lemma FinalStart(s: Snapshot, products: seq<string>)
    requires FinalReady(s, products)
    ensures FinalUpTo(s, products, s.final, 0)
  {
  }

  /** Writing product `i`'s derived value extends the finished prefix by one. */
  lemma FinalStep(s: Snapshot, products: seq<string>, t: Table, i: nat)
    requires FinalUpTo(s, products, t, i) && i < |products|
    ensures products[i] in s.initial.values && products[i] in s.production.values
    ensures products[i] in s.shipment.values && products[i] in s.returned.values
    ensures FinalUpTo(s, products, t.Set(products[i], FinalValue(s, products[i])), i + 1)
  {
    assert products[..i + 1] == products[..i] + [products[i]];
  }

  /** Once every catalog product is written, final stock is the derived table. */
  lemma FinalDone(s: Snapshot, products: seq<string>, t: Table)
    requires FinalUpTo(s, products, t, |products|)
    ensures s.(final := t) == Recompute(s, products)
  {
    assert products[..|products|] == products;
    assert t.values == Recompute(s, products).final.values;
  }

  /** Box `i` of an edit that has got this far is written into the
      ledger the earlier boxes left. */
  lemma EnteredStep(s0: Snapshot, which: Kind, acts: seq<(string, FieldAction)>, i: nat, s: Snapshot)
    requires i < |acts| && Entered(s0, which, acts[..i]) == (s, true)
    ensures Entered(s0, which, acts[..i + 1]) == Entered(s, which, [acts[i]])
  {
    var t := ApplyFields(s0.Get(which), acts[..i]).0;
    assert acts[..i + 1][..i] == acts[..i];
    EnteredOne(s, which, acts[i]);
    WithWith(s0, which, t, ApplyField(t, acts[i]).0);
  }

  lemma EnteredOne(s: Snapshot, which: Kind, act: (string, FieldAction))
    ensures Entered(s, which, [act]) == (s.With(which, ApplyField(s.Get(which), act).0), ApplyField(s.Get(which), act).1)
  {
    assert [act][..0] == [];
    assert ApplyFields(s.Get(which), [act]) == ApplyField(s.Get(which), act);
  }

  /** A box `int()` rejects ends the edit: no box after it is looked at. */
  lemma EnteredStops(s0: Snapshot, which: Kind, acts: seq<(string, FieldAction)>, i: nat, s: Snapshot)
    requires i < |acts| && Entered(s0, which, acts[..i + 1]) == (s, false)
    ensures Entered(s0, which, acts) == (s, false)
  {
    ApplyFieldsSticky(s0.Get(which), acts[..i + 1], acts[i + 1..]);
    TakeDrop(acts, i + 1);
  }

  /** Line `i` of a load that has got this far is applied to the ledger
      the earlier lines left. */
  lemma LineStep(s0: Snapshot, acts: seq<LineAction>, i: nat, s: Snapshot)
    requires i < |acts| && ApplyLines(s0, acts[..i]) == (s, true)
    ensures ApplyLines(s0, acts[..i + 1]) == ApplyLine(s, acts[i])
  {
    TakeSnoc(acts, i);
    LineSnoc(s0, acts[..i], acts[i]);
  }

  lemma LineSnoc(s0: Snapshot, front: seq<LineAction>, a: LineAction)
    requires ApplyLines(s0, front).1
    ensures ApplyLines(s0, front + [a]) == ApplyLine(ApplyLines(s0, front).0, a)
  {
    assert (front + [a])[..|front|] == front;
  }

  /** A line whose count `int()` rejects, reached with the lines before it
      all applied, leaves the load where those lines put it. */
  lemma LinesBad(s0: Snapshot, acts: seq<LineAction>, i: nat, s: Snapshot)
    requires i < |acts| && acts[i] == BadNumber
    requires ApplyLines(s0, acts[..i]) == (s, true)
    ensures ApplyLines(s0, acts) == (s, false)
  {
    ApplyLinesOk(s0, acts[..i]);
    ApplyLinesStopsAtBad(s0, acts, i);
  }

  lemma ValidIndexed(t: Table)
    requires t.Valid()
    ensures Indexed(t)
  {
  }

  /** Writing the line of key `i` extends the block of the keys before it. */
  lemma BlockStep(k: Kind, keys: seq<string>, values: map<string, int>, i: nat)
    requires Keyed(keys, values)
    requires i < |keys|
    ensures Keyed(keys[..i + 1], values)
    ensures Block(k, keys[..i + 1], values) == Block(k, keys[..i], values) + [EntryLine(k, keys[i], values[keys[i]])]
  {
    assert keys[..i + 1][..i] == keys[..i];
  }

  /** Adding key `i`'s count extends the sum over the keys before it. */
  lemma SumStep(keys: seq<string>, values: map<string, int>, i: nat)
    requires Keyed(keys, values)
    requires i < |keys|
    ensures Keyed(keys[..i + 1], values)
    ensures SumOver(keys[..i + 1], values) == SumOver(keys[..i], values) + values[keys[i]]
  {
    assert keys[..i + 1][..i] == keys[..i];
  }

  lemma MarkStep(t: Table, i: nat)
    requires Indexed(t) && i < |t.order|
    ensures Statuses(t)[..i + 1] == Statuses(t)[..i] + [Status(t.values[t.order[i]])]
  {
    TakeSnoc(Statuses(t), i);
  }

  lemma ListedPrefix(s: Snapshot, ps: seq<string>, i: nat)
    requires Listed(s, ps) && i <= |ps|
    ensures Listed(s, ps[..i])
  {
    assert forall j :: 0 <= j < i ==> ps[..i][j] == ps[j];
  }

  /** Writing product `i`'s row extends the rows of the products before it. */
  lemma RowStep(s: Snapshot, ps: seq<string>, i: nat)
    requires Listed(s, ps) && i < |ps|
    ensures Listed(s, ps[..i]) && Listed(s, ps[..i + 1])
    ensures Rows(s, ps[..i + 1]) == Rows(s, ps[..i]) + RowText(s, ps[i])
  {
    ListedPrefix(s, ps, i);
    ListedPrefix(s, ps, i + 1);
    assert ps[..i + 1][..i] == ps[..i];
  }

  /** `save_data`'s loop over one table: one line per key, in the table's
      order. */
  method WriteBlock(k: Kind, t: Table) returns (block: seq<string>)
    requires Indexed(t)
    ensures block == TableBlock(k, t)
  {
    block := [];
    var i := 0;
    while i < |t.order|
      invariant 0 <= i <= |t.order|
      invariant Keyed(t.order[..i], t.values)
      invariant block == Block(k, t.order[..i], t.values)
    {
      BlockStep(k, t.order, t.values, i);
      var product := t.order[i];
      block := block + [EntryLine(k, product, t.values[product])];
      i := i + 1;
    }
    assert t.order[..i] == t.order;
  }

  class KebabInventoryApp {
    const products: seq<string>
    var currentDate: string
    var initialInventory: Table
    var production: Table
    var shipment: Table
    var returned: Table  // `returns` in the source; a keyword here
    var finalInventory: Table

    /** The ledger the fields hold. */
    function State(): Snapshot
      reads this
    {
      Snapshot(currentDate, initialInventory, production, shipment, returned, finalInventory)
    }

    ghost predicate Valid()
      reads this
    {
      WellFormed(State(), products)
    }

    /** Builds the tables, stamps today's date, then loads the saved file
        when there is one (`saved` is its text, `None` when it is missing). */
    constructor (today: string, saved: Option<string>)
      ensures products == Catalog
      ensures Valid()
      ensures State() == Load(Fresh(Catalog, today), Catalog, saved)
    {
      products := Catalog;
      new;
      CatalogDistinct();
      InitializeTables();
      currentDate := today;
      LoadData(saved);
    }

    /** Every table becomes a fresh copy of the catalog with all counts 0. */
    method InitializeTables()
      requires Distinct(products)
      modifies this
      ensures Valid()
      ensures State() == Fresh(products, old(currentDate))
    {
      var zeros := Zeros(products);
      initialInventory := zeros;
      production := zeros;
      shipment := zeros;
      returned := zeros;
      finalInventory := zeros;
    }

    /** Final stock of each catalog product, in catalog order, from the
        four input tables, which are left as they are. */
    method CalculateFinalInventory()
      requires FinalReady(State(), products)
      modifies this`finalInventory
      ensures State() == Recompute(old(State()), products)
    {
      ghost var s0 := State();
      FinalStart(s0, products);
      var i := 0;
      while i < |products|
        invariant 0 <= i <= |products|
        invariant FinalUpTo(s0, products, finalInventory, i)
      {
        var product := products[i];
        FinalStep(s0, products, finalInventory, i);
        finalInventory := finalInventory.Set(product,
          initialInventory.values[product] + production.values[product] +
          returned.values[product] - shipment.values[product]);
        i := i + 1;
      }
      FinalDone(s0, products, finalInventory);
    }

    /** `table[key] = value` on the input table `which`. */
    method Store(which: Kind, key: string, value: int)
      modifies this
      ensures State() == old(State()).With(which, old(State()).Get(which).Set(key, value))
    {
      match which
      case Initial => initialInventory := initialInventory.Set(key, value);
      case Production => production := production.Set(key, value);
      case Shipment => shipment := shipment.Set(key, value);
      case Returns => returned := returned.Set(key, value);
    }

    /** The input screen's save button for table `which`: each box's text,
        stripped, is skipped when empty and written through `int()`
        otherwise; the first box `int()` rejects ends the save with the
        boxes before it written and final stock not re-derived. The result
        says whether the success message is shown. */
    method SaveInputData(which: Kind, fields: seq<(string, string)>) returns (saved: bool)
      requires Valid()
      modifies this
      ensures Valid()
      ensures (State(), saved) == Edit(old(State()), products, which, ReadForm(fields))
    {
      ghost var s0 := State();
      var ok := StoreFields(which, fields);
      EditedReady(s0, products, which, ReadForm(fields));
      if !ok {
        return false;
      }
      CalculateFinalInventory();
      saved := true;
    }

    /** The boxes written into table `which` in order; false, with the
        boxes before it written, at the first box `int()` rejects. */
    method StoreFields(which: Kind, fields: seq<(string, string)>) returns (ok: bool)
      modifies this
      ensures (State(), ok) == Entered(old(State()), which, ReadForm(fields))
    {
      ghost var s0 := State();
      ghost var acts := ReadForm(fields);
      var i := 0;
      while i < |fields|
        invariant 0 <= i <= |fields|
        invariant Entered(s0, which, acts[..i]) == (State(), true)
      {
        EnteredStep(s0, which, acts, i, State());
        assert acts[i] == (fields[i].0, ReadField(fields[i].1));
        ok := StoreField(which, fields[i].0, fields[i].1);
        if !ok {
          EnteredStops(s0, which, acts, i, State());
          return;
        }
        i := i + 1;
      }
      TakeAll(acts);
      ok := true;
    }

    /** One box: stripped, skipped when blank, otherwise written through
        `int()`; false, with nothing written, when `int()` rejects it. */
    method StoreField(which: Kind, product: string, text: string) returns (ok: bool)
      modifies this
      ensures (State(), ok) == Entered(old(State()), which, [(product, ReadField(text))])
    {
      ghost var s := State();
      EnteredOne(s, which, (product, ReadField(text)));
      var value := Strip(text);
      ok := true;
      if value != [] {
        var n := ParseInt(value);
        if n.None? {
          assert ReadField(text) == Bad;
          WithSame(s, which);
          return false;
        }
        assert ReadField(text) == Write(n.value);
        Store(which, product, n.value);
      } else {
        assert ReadField(text) == Skip;
        WithSame(s, which);
      }
    }

    /** Reads the saved file line by line; a count `int()` rejects ends
        the load there, with the lines before it applied and final stock
        not re-derived. */
    method LoadData(file: Option<string>)
      requires Valid()
      modifies this
      ensures Valid()
      ensures State() == Load(old(State()), products, file)
    {
      if file.None? {
        return;
      }
      var ok := LoadLines(Split(file.value, '\n'));
      ApplyLinesKeepsWellFormed(old(State()), products, ReadLines(file.value));
      if ok {
        ReadyFromWellFormed(State(), products);
        CalculateFinalInventory();
      }
    }

    /** The file's lines applied in order; false, with the lines before it
        applied, at the first count `int()` rejects. */
    method LoadLines(lines: seq<string>) returns (ok: bool)
      modifies this
      ensures (State(), ok) == ApplyLines(old(State()), ReadAll(lines))
    {
      ghost var s0 := State();
      ghost var acts := ReadAll(lines);
      var i := 0;
      while i < |lines|
        invariant 0 <= i <= |lines|
        invariant ApplyLines(s0, acts[..i]) == (State(), true)
      {
        ReadAllAt(lines, i);
        LineStep(s0, acts, i, State());
        ok := LoadLine(lines[i]);
        if !ok {
          LinesBad(s0, acts, i, State());
          return;
        }
        i := i + 1;
      }
      TakeAll(acts);
      ok := true;
    }

    /** One line of the saved file: `DATE:` sets the date, a line with a
        table's tag goes to `LoadRecord`, any other line is skipped; false
        when the line aborts the load. */
    method LoadLine(line: string) returns (ok: bool)
      modifies this
      ensures (State(), ok) == ApplyLine(old(State()), ReadLine(line))
    {
      ghost var s := State();
      if "DATE:" <= line {
        currentDate := DateField(line);
        ok := true;
        assert ReadLine(line) == SetDate(DateField(line));
        assert ApplyLine(s, SetDate(DateField(line))).0 == State();
      } else {
        var kind := RecordKind(line);
        if kind.Some? {
          assert ReadLine(line) == ReadRecord(kind.value, Split(Strip(line), ':'));
          ok := LoadRecord(kind.value, Split(Strip(line), ':'));
        } else {
          assert ReadLine(line) == Ignore;
          ok := true;
        }
      }
    }

    /** A tagged line's `:`-fields: fewer than three are skipped, otherwise
        the count goes through `int()` and is written under the product;
        false when `int()` rejects it. */
    method LoadRecord(kind: Kind, parts: seq<string>) returns (ok: bool)
      modifies this
      ensures (State(), ok) == ApplyLine(old(State()), ReadRecord(kind, parts))
    {
      ghost var s := State();
      ok := true;
      if |parts| >= 3 {
        var n := ParseInt(parts[2]);
        if n.None? {
          return false;
        }
        Store(kind, parts[1], n.value);
        assert ApplyLine(s, SetEntry(kind, parts[1], n.value)).0 == State();
      }
    }

    /** The lines `save_data` writes: the date, then the initial,
        production, shipment and returns tables, each in its own order. */
    method SaveData() returns (lines: seq<string>)
      requires Valid()
      ensures lines == SaveLines(State())
    {
      ValidIndexed(initialInventory);
      ValidIndexed(production);
      ValidIndexed(shipment);
      ValidIndexed(returned);
      lines := ["DATE:" + currentDate];
      var block := WriteBlock(Initial, initialInventory);
      lines := lines + block;
      block := WriteBlock(Production, production);
      lines := lines + block;
      block := WriteBlock(Shipment, shipment);
      lines := lines + block;
      block := WriteBlock(Returns, returned);
      lines := lines + block;
    }

    /** `export_to_html`'s page: the heading and header row, one row per
        catalog product, then the end of the table. */
    method ExportToHtml() returns (html: string)
      requires Valid()
      ensures html == Html(State(), products)
    {
      WellFormedListed(State(), products);
      html := Head(currentDate);
      html := AppendRows(html);
      Assoc(Head(currentDate), Rows(State(), products), DocEnd);
      html := html + DocEnd;
    }

    /** `export_to_html`'s loop: appends the row of each catalog product,
        in catalog order. */
    method AppendRows(prefix: string) returns (html: string)
      requires Valid()
      ensures Listed(State(), products)
      ensures html == prefix + Rows(State(), products)
    {
      var s := State();
      WellFormedListed(s, products);
      ListedPrefix(s, products, 0);
      html := prefix;
      var i := 0;
      while i < |products|
        invariant 0 <= i <= |products|
        invariant Listed(s, products[..i])
        invariant html == prefix + Rows(s, products[..i])
      {
        RowStep(s, products, i);
        Assoc(prefix, Rows(s, products[..i]), RowText(s, products[i]));
        html := html + RowText(s, products[i]);
        i := i + 1;
      }
      assert products[..i] == products;
    }

    /** The final-stock section of the full report: the mark of each final
        count, in the table's order, and their running total. */
    method FinalStockSection() returns (total: int, marks: seq<string>)
      requires Valid()
      ensures total == Total(State())
      ensures marks == Statuses(finalInventory)
    {
      ValidIndexed(finalInventory);
      var t := finalInventory;
      total, marks := 0, [];
      var i := 0;
      while i < |t.order|
        invariant 0 <= i <= |t.order|
        invariant Keyed(t.order[..i], t.values)
        invariant total == SumOver(t.order[..i], t.values)
        invariant marks == Statuses(t)[..i]
      {
        SumStep(t.order, t.values, i);
        MarkStep(t, i);
        var value := t.values[t.order[i]];
        marks := marks + [Status(value)];
        total := total + value;
        i := i + 1;
      }
      TakeAll(t.order);
      TakeAll(Statuses(t));
    }
  }
}
