/** The reports built from the ledger: the HTML page `export_to_html`
    writes, and the total and sign marks of the final-stock section of
    `show_full_report`. */
module Report {
  import opened SeqFacts
  import opened PyStr
  import opened Inventory

  // ---- the HTML page ----

  /** Everything before the date in the page: the document head with its
      style sheet, and the opening of the heading. */
  const DocStart: string := "<!DOCTYPE html>\n<html lang=\"fa\">\n<head>\n    <meta charset=\"UTF-8\">\n    <title>گزارش موجودی کباب</title>\n    <style>\n        body { font-family: Tahoma; direction: rtl; }\n        table { width: 100%; border-collapse: collapse; }\n        th, td { border: 1px solid black; padding: 8px; text-align: center; }\n        th { background-color: #f2f2f2; }\n    </style>\n</head>\n<body>\n    <h1>گزارش موجودی کباب - "

  /** From the end of the heading to the header row. */
  const HeadingEnd: string := "</h1>\n    <table>\n        "

  /** The column headings of the header row: product, initial stock,
      production, shipments, returns, final stock. */
  const Headings: seq<string> :=
    ["محصول", "موجودی اولیه", "تولیدات", "ارسالی\U{200c}ها", "مرجوعی", "موجودی نهائی"]

  /** The header row, one `<th>` per heading. */
  const HeaderRow: string := "<tr>" + HeadCells(Headings) + "</tr>"

  /** `<th>` cells, one per heading, in order. */
  function HeadCells(hs: seq<string>): string {
    if hs == [] then [] else HeadCells(hs[..|hs| - 1]) + "<th>" + hs[|hs| - 1] + "</th>"
  }

  /** The page after the last row. */
  const DocEnd: string := "\n    </table>\n</body>\n</html>"

  /** `<td>` cells, one per line. */
  function DataCells(cells: seq<string>): string {
    if cells == [] then ""
    else DataCells(cells[..|cells| - 1]) + "\n            <td>" + cells[|cells| - 1] + "</td>"
  }

  /** The page up to and including the header row. */
  function Head(date: string): string {
    DocStart + date + HeadingEnd + HeaderRow
  }

  /** The cells of one product's row: the product, then its initial,
      production, shipment, returns and final counts. */
  function RowCells(s: Snapshot, p: string): (r: seq<string>)
    requires p in s.initial.values && p in s.production.values
    requires p in s.shipment.values && p in s.returned.values && p in s.final.values
    ensures |r| == |Headings|
  {
    [p, Show(s.initial.values[p]), Show(s.production.values[p]), Show(s.shipment.values[p]),
     Show(s.returned.values[p]), Show(s.final.values[p])]
  }

  /** Every product in `ps` has a count in all five tables. */
  ghost predicate Listed(s: Snapshot, ps: seq<string>) {
    forall i :: 0 <= i < |ps| ==>
      ps[i] in s.initial.values && ps[i] in s.production.values && ps[i] in s.shipment.values &&
      ps[i] in s.returned.values && ps[i] in s.final.values
  }

  function RowText(s: Snapshot, p: string): string
    requires p in s.initial.values && p in s.production.values
    requires p in s.shipment.values && p in s.returned.values && p in s.final.values
  {
    "\n        <tr>" + DataCells(RowCells(s, p)) + "\n        </tr>"
  }

  /** One row per product of `ps`, in that order. */
  function Rows(s: Snapshot, ps: seq<string>): string
    requires Listed(s, ps)
  {
    if ps == [] then ""
    else Rows(s, ps[..|ps| - 1]) + RowText(s, ps[|ps| - 1])
  }

  /** `export_to_html`'s page: one row per catalog product. */
  function Html(s: Snapshot, products: seq<string>): string
    requires Listed(s, products)
  {
    Head(s.date) + (Rows(s, products) + DocEnd)
  }

  /** A well-formed ledger lists every catalog product in all five tables. */
  lemma WellFormedListed(s: Snapshot, products: seq<string>)
    requires WellFormed(s, products)
    ensures Listed(s, products)
  {
    WellFormedCovers(s, products);
    forall i | 0 <= i < |products| ensures products[i] in s.final.values {
      assert s.final.order[i] == products[i];
    }
  }

  /** The page opens with the document head and the heading's title, then
      the ledger's date, then the end of the heading. */
  lemma HtmlHeading(s: Snapshot, products: seq<string>)
    requires Listed(s, products)
    ensures Html(s, products)[..|DocStart|] == DocStart
    ensures Html(s, products)[|DocStart|..|DocStart| + |s.date|] == s.date
    ensures Html(s, products)[|DocStart| + |s.date|..|DocStart| + |s.date| + |HeadingEnd|] == HeadingEnd
  {
    Slices(DocStart, s.date, HeadingEnd, HeaderRow, Rows(s, products) + DocEnd);
  }

  lemma Slices<T>(a: seq<T>, d: seq<T>, e: seq<T>, h: seq<T>, w: seq<T>)
    ensures (a + d + e + h + w)[..|a|] == a
    ensures (a + d + e + h + w)[|a|..|a| + |d|] == d
    ensures (a + d + e + h + w)[|a| + |d|..|a| + |d| + |e|] == e
  {
  }

  lemma ListedSplit(s: Snapshot, a: seq<string>, b: seq<string>)
    requires Listed(s, a + b)
    ensures Listed(s, a) && Listed(s, b)
  {
    forall i | 0 <= i < |a| ensures a[i] == (a + b)[i] { }
    forall i | 0 <= i < |b| ensures b[i] == (a + b)[|a| + i] { }
  }

  lemma {:induction false} RowsAppend(s: Snapshot, a: seq<string>, b: seq<string>)
    requires Listed(s, a + b)
    ensures Listed(s, a) && Listed(s, b)
    ensures Rows(s, a + b) == Rows(s, a) + Rows(s, b)
  {
    ListedSplit(s, a, b);
    if b == [] {
      assert a + b == a;
    } else {
      var n := |b| - 1;
      assert (a + b)[..|a + b| - 1] == a + b[..n];
      assert (a + b)[|a + b| - 1] == b[n];
      RowsAppend(s, a, b[..n]);
      Assoc(Rows(s, a), Rows(s, b[..n]), RowText(s, b[n]));
    }
  }

  lemma RowsSplit(s: Snapshot, products: seq<string>, i: nat)
    requires Listed(s, products) && i < |products|
    ensures Listed(s, products[..i]) && Listed(s, products[i + 1..])
    ensures Rows(s, products) == Rows(s, products[..i]) + RowText(s, products[i]) + Rows(s, products[i + 1..])
  {
    assert products == products[..i] + ([products[i]] + products[i + 1..]);
    RowsAround(s, products[..i], products[i], products[i + 1..]);
    RowsOne(s, products[i]);
  }

  lemma RowsAround(s: Snapshot, a: seq<string>, p: string, b: seq<string>)
    requires Listed(s, a + ([p] + b))
    ensures Listed(s, a) && Listed(s, b) && Listed(s, [p])
    ensures Rows(s, a + ([p] + b)) == Rows(s, a) + Rows(s, [p]) + Rows(s, b)
  {
    RowsAppend(s, a, [p] + b);
    RowsAppend(s, [p], b);
    Assoc(Rows(s, a), Rows(s, [p]), Rows(s, b));
  }

  lemma RowsOne(s: Snapshot, p: string)
    requires p in s.initial.values && p in s.production.values
    requires p in s.shipment.values && p in s.returned.values && p in s.final.values
    ensures Rows(s, [p]) == RowText(s, p)
  {
    assert [p][..0] == [];
  }

  /** The rows come in catalog order: the row of the `i`-th product stands
      after the rows of the products before it and before the rows of the
      products after it. */
  lemma HtmlRowAt(s: Snapshot, products: seq<string>, i: nat)
    requires Listed(s, products) && i < |products|
    ensures Listed(s, products[..i]) && Listed(s, products[i + 1..])
    ensures Html(s, products)
      == Head(s.date) + (Rows(s, products[..i]) + RowText(s, products[i]) + Rows(s, products[i + 1..]) + DocEnd)
  {
    RowsSplit(s, products, i);
  }

  /** Each row has one cell per heading; the first is the product and each
      other cell reads back as the count of its column's table. */
  lemma RowColumns(s: Snapshot, p: string)
    requires p in s.initial.values && p in s.production.values
    requires p in s.shipment.values && p in s.returned.values && p in s.final.values
    ensures |RowCells(s, p)| == |Headings| && RowCells(s, p)[0] == p
    ensures ParseInt(RowCells(s, p)[1]) == Some(s.initial.values[p])
    ensures ParseInt(RowCells(s, p)[2]) == Some(s.production.values[p])
    ensures ParseInt(RowCells(s, p)[3]) == Some(s.shipment.values[p])
    ensures ParseInt(RowCells(s, p)[4]) == Some(s.returned.values[p])
    ensures ParseInt(RowCells(s, p)[5]) == Some(s.final.values[p])
  {
    var r := RowCells(s, p);
    assert r[1] == Show(s.initial.values[p]) && r[2] == Show(s.production.values[p]);
    ParseShow(s.initial.values[p]);
    ParseShow(s.production.values[p]);
    ParseShow(s.shipment.values[p]);
    ParseShow(s.returned.values[p]);
    ParseShow(s.final.values[p]);
  }

  /** In a consistent ledger every row adds up: its final cell is its
      initial plus production plus returns minus shipments. */
  lemma RowBalances(s: Snapshot, products: seq<string>, p: string)
    requires Consistent(s, products) && p in products
    ensures p in s.final.values
    ensures ParseInt(RowCells(s, p)[5]) == Some(s.initial.values[p] + s.production.values[p] + s.returned.values[p] - s.shipment.values[p])
  {
    var v := s.final.values[p];
    assert v == FinalValue(s, p);
    assert RowCells(s, p)[5] == Show(v);
    ParseShow(v);
  }

  // ---- the final-stock section of the full report ----

  /** The sum of the counts of `keys`. */
  function SumOver(keys: seq<string>, values: map<string, int>): int
    requires Keyed(keys, values)
  {
    if keys == [] then 0 else SumOver(keys[..|keys| - 1], values) + values[keys[|keys| - 1]]
  }

  /** `total`: the sum of final stock over its keys. */
  function Total(s: Snapshot): int
    requires Indexed(s.final)
  {
    SumOver(s.final.order, s.final.values)
  }

  /** The mark shown before each final count: a tick for a count of zero or
      more, a cross for a negative one. */
  function Status(v: int): (r: string)
    ensures r == "✅" <==> v >= 0
    ensures r == "❌" <==> v < 0
  {
    if v >= 0 then "✅" else "❌"
  }

  /** The marks of the final-stock lines, in the table's order. */
  function Statuses(t: Table): (r: seq<string>)
    requires Indexed(t)
    ensures |r| == |t.order|
  {
    seq(|t.order|, i requires 0 <= i < |t.order| => Status(t.values[t.order[i]]))
  }

  /** When every line carries a tick the total is not negative; a negative
      total therefore always shows at least one cross. */
  lemma {:induction false} AllTicksNonNegative(keys: seq<string>, values: map<string, int>)
    requires Keyed(keys, values)
    requires forall i :: 0 <= i < |keys| ==> values[keys[i]] >= 0
    ensures SumOver(keys, values) >= 0
  {
    if keys != [] {
      AllTicksNonNegative(keys[..|keys| - 1], values);
    }
  }

  lemma TotalNegativeShowsCross(s: Snapshot)
    requires Indexed(s.final)
    requires Total(s) < 0
    ensures exists i :: 0 <= i < |s.final.order| && Statuses(s.final)[i] == "❌"
  {
    if forall i :: 0 <= i < |s.final.order| ==> s.final.values[s.final.order[i]] >= 0 {
      AllTicksNonNegative(s.final.order, s.final.values);
    } else {
      var i :| 0 <= i < |s.final.order| && s.final.values[s.final.order[i]] < 0;
      assert Statuses(s.final)[i] == "❌";
    }
  }

  /** The counts a product list's sums split along the final-stock formula. */
  lemma {:induction false} SumBalance(s: Snapshot, ps: seq<string>)
    requires forall i :: 0 <= i < |ps| ==>
      ps[i] in s.initial.values && ps[i] in s.production.values &&
      ps[i] in s.shipment.values && ps[i] in s.returned.values && ps[i] in s.final.values &&
      s.final.values[ps[i]] == FinalValue(s, ps[i])
    ensures SumOver(ps, s.final.values)
      == SumOver(ps, s.initial.values) + SumOver(ps, s.production.values)
       + SumOver(ps, s.returned.values) - SumOver(ps, s.shipment.values)
  {
    if ps != [] {
      SumBalance(s, ps[..|ps| - 1]);
    }
  }

  /** In a consistent ledger the total of final stock is total initial
      stock plus total production plus total returns minus total shipments,
      over the catalog. */
  lemma TotalBalance(s: Snapshot, products: seq<string>)
    requires Consistent(s, products)
    ensures Indexed(s.final)
    ensures forall i :: 0 <= i < |products| ==>
      products[i] in s.initial.values && products[i] in s.production.values &&
      products[i] in s.shipment.values && products[i] in s.returned.values
    ensures Total(s)
      == SumOver(products, s.initial.values) + SumOver(products, s.production.values)
       + SumOver(products, s.returned.values) - SumOver(products, s.shipment.values)
  {
    SumBalance(s, products);
  }
}
