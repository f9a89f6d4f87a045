/** The ledger's text file: the lines `save_data` writes and how
    `load_data` reads them back. */
module Persistence {
  import opened SeqFacts
  import opened PyStr
  import opened Inventory

  /** The record tag written before each input table's lines. */
  function Tag(k: Kind): string {
    match k
    case Initial => "INIT"
    case Production => "PROD"
    case Shipment => "SHIP"
    case Returns => "RET"
  }

  /** `f"{TAG}:{product}:{value}"` */
  function EntryLine(k: Kind, product: string, value: int): string {
    Tag(k) + ":" + product + ":" + Show(value)
  }

  /** One line per key of a table, in its iteration order. */
  function Block(k: Kind, keys: seq<string>, values: map<string, int>): (r: seq<string>)
    requires Keyed(keys, values)
    ensures |r| == |keys|
  {
    if keys == [] then []
    else Block(k, keys[..|keys| - 1], values) + [EntryLine(k, keys[|keys| - 1], values[keys[|keys| - 1]])]
  }

  /** Line `i` of a block is key `i` with its value. */
  lemma BlockLines(k: Kind, keys: seq<string>, values: map<string, int>)
    requires Keyed(keys, values)
    ensures forall i :: 0 <= i < |keys| ==> Block(k, keys, values)[i] == EntryLine(k, keys[i], values[keys[i]])
  {
    forall i | 0 <= i < |keys|
      ensures Block(k, keys, values)[i] == EntryLine(k, keys[i], values[keys[i]])
    {
      BlockLine(k, keys, values, i);
    }
  }

  lemma {:induction false} BlockLine(k: Kind, keys: seq<string>, values: map<string, int>, i: nat)
    requires Keyed(keys, values) && i < |keys|
    ensures Block(k, keys, values)[i] == EntryLine(k, keys[i], values[keys[i]])
    decreases |keys|
  {
    if i < |keys| - 1 {
      BlockLineBefore(k, keys, values, i);
      BlockLine(k, keys[..|keys| - 1], values, i);
    }
  }

  /** Line `i` of a block is line `i` of the block without its last key. */
  lemma BlockLineBefore(k: Kind, keys: seq<string>, values: map<string, int>, i: nat)
    requires Keyed(keys, values)
    requires i < |keys| - 1
    ensures keys[..|keys| - 1][i] == keys[i]
    ensures Block(k, keys, values)[i] == Block(k, keys[..|keys| - 1], values)[i]
  {
  }

  function TableBlock(k: Kind, t: Table): (r: seq<string>)
    requires Indexed(t)
  {
    Block(k, t.order, t.values)
  }

  /** The lines of the file `save_data` writes: the date, then the initial,
      production, shipment and returns tables, each in its own order. Final
      stock is not written. */
  function SaveLines(s: Snapshot): (r: seq<string>)
    requires Indexed(s.initial) && Indexed(s.production) && Indexed(s.shipment) && Indexed(s.returned)
  {
    ["DATE:" + s.date]
      + TableBlock(Initial, s.initial) + TableBlock(Production, s.production)
      + TableBlock(Shipment, s.shipment) + TableBlock(Returns, s.returned)
  }

  /** The file's text: every line ends with a newline. */
  function SaveText(s: Snapshot): string
    requires Indexed(s.initial) && Indexed(s.production) && Indexed(s.shipment) && Indexed(s.returned)
  {
    Unlines(SaveLines(s))
  }

  /** The file's layout: the date line first, then one block per input
      table in the order initial, production, shipment, returns (each
      block's lines are given by `Block`). */
  lemma SaveLayout(s: Snapshot)
    requires Indexed(s.initial) && Indexed(s.production) && Indexed(s.shipment) && Indexed(s.returned)
    ensures var r, a, b, c := SaveLines(s), |s.initial.order|, |s.production.order|, |s.shipment.order|;
      && |r| == 1 + a + b + c + |s.returned.order|
      && r[0] == "DATE:" + s.date
      && r[1..1 + a] == TableBlock(Initial, s.initial)
      && r[1 + a..1 + a + b] == TableBlock(Production, s.production)
      && r[1 + a + b..1 + a + b + c] == TableBlock(Shipment, s.shipment)
      && r[1 + a + b + c..] == TableBlock(Returns, s.returned)
  {
    var a, b, c, d := TableBlock(Initial, s.initial), TableBlock(Production, s.production),
      TableBlock(Shipment, s.shipment), TableBlock(Returns, s.returned);
    FiveParts(SaveLines(s), "DATE:" + s.date, a, b, c, d);
  }

  lemma FiveParts<T>(r: seq<T>, h: T, a: seq<T>, b: seq<T>, c: seq<T>, d: seq<T>)
    requires r == [h] + a + b + c + d
    ensures |r| == 1 + |a| + |b| + |c| + |d| && r[0] == h
    ensures r[1..1 + |a|] == a
    ensures r[1 + |a|..1 + |a| + |b|] == b
    ensures r[1 + |a| + |b|..1 + |a| + |b| + |c|] == c
    ensures r[1 + |a| + |b| + |c|..] == d
  {
    assert r[1..] == a + b + c + d;
    assert r[1 + |a|..] == b + c + d;
    assert r[1 + |a| + |b|..] == c + d;
  }

  // ---- reading one line ----

  /** What one line of the file does to the ledger: set the date, set one
      count, abort the load (`int()` raised), or nothing. */
  datatype LineAction =
    | SetDate(date: string)
    | SetEntry(kind: Kind, product: string, value: int)
    | BadNumber
    | Ignore

  /** The table a line's tag names, tested in the source's order. */
  function RecordKind(line: string): (r: Option<Kind>)
    ensures r.Some? ==> Tag(r.value) + ":" <= line
  {
    if "INIT:" <= line then Some(Initial)
    else if "PROD:" <= line then Some(Production)
    else if "SHIP:" <= line then Some(Shipment)
    else if "RET:" <= line then Some(Returns)
    else None
  }

  /** A line that starts with `DATE:` still has at least two `:`-fields
      after `strip()`, so the date field always exists. */
  lemma DateHasField(line: string)
    requires "DATE:" <= line
    ensures |Split(Strip(line), ':')| >= 2
  {
    var p := "DATE:";
    StripKeepsPrefix(line, p);
    var t := Strip(line);
    assert t == "DATE" + [':'] + t[5..];
    SplitCons("DATE", t[5..], ':');
  }

  /** `line.strip().split(':')[1]` */
  function DateField(line: string): string
    requires "DATE:" <= line
  {
    DateHasField(line);
    Split(Strip(line), ':')[1]
  }

  /** How `load_data` reads one line: the date line, then the four tags;
      a tagged line needs three `:`-fields, takes the second as the product
      and the third through `int()`; any other line is skipped. */
  function ReadLine(line: string): LineAction {
    if "DATE:" <= line then SetDate(DateField(line))
    else match RecordKind(line)
      case None => Ignore
      case Some(k) => ReadRecord(k, Split(Strip(line), ':'))
  }

  /** A tagged line's `:`-fields: fewer than three are skipped, otherwise
      the second names the product and the third goes through `int()`. */
  function ReadRecord(k: Kind, parts: seq<string>): LineAction {
    if |parts| < 3 then Ignore
    else match ParseInt(parts[2])
      case None => BadNumber
      case Some(n) => SetEntry(k, parts[1], n)
  }

  /** The file's text cut into lines, each read as `load_data` reads it. */
  function ReadLines(text: string): seq<LineAction> {
    ReadAll(Split(text, '\n'))
  }

  /** Each line read on its own, in order. */
  function ReadAll(lines: seq<string>): (acts: seq<LineAction>)
    ensures |acts| == |lines|
  {
    seq(|lines|, i requires 0 <= i < |lines| => ReadLine(lines[i]))
  }

  /** Line `i` of the file gives action `i`. */
  lemma ReadAllAt(lines: seq<string>, i: nat)
    requires i < |lines|
    ensures ReadAll(lines)[i] == ReadLine(lines[i])
  {
  }

  lemma ReadOne(line: string)
    ensures ReadAll([line]) == [ReadLine(line)]
  {
    ReadAllAt([line], 0);
  }

  lemma ReadAllAppend(a: seq<string>, b: seq<string>)
    ensures ReadAll(a + b) == ReadAll(a) + ReadAll(b)
  {
    var r, l := ReadAll(a + b), ReadAll(a) + ReadAll(b);
    forall i | 0 <= i < |r| ensures r[i] == l[i] {
      ReadAllAt(a + b, i);
      if i < |a| {
        ReadAllAt(a, i);
        assert (a + b)[i] == a[i];
      } else {
        ReadAllAt(b, i - |a|);
        assert (a + b)[i] == b[i - |a|];
      }
    }
  }

  /** A line that starts neither with `DATE:` nor with a tag and a colon
      is skipped. */
  lemma ReadLineUnknown(line: string)
    requires !("DATE:" <= line) && forall k: Kind :: !(Tag(k) + ":" <= line)
    ensures ReadLine(line) == Ignore
  {
  }

  /** A line that starts with a tag and a colon is read as that table's
      record, never as a date. */
  lemma RecordKindTag(k: Kind, rest: string)
    ensures !("DATE:" <= Tag(k) + ":" + rest)
    ensures RecordKind(Tag(k) + ":" + rest) == Some(k)
  {
    var line := Tag(k) + ":" + rest;
    assert line[..|Tag(k)| + 1] == Tag(k) + ":";
    assert line[0] == Tag(k)[0];
  }

  /** A tagged line with fewer than three `:`-fields is skipped, whatever
      stands after the tag's colon. */
  lemma ReadLineShort(k: Kind, product: string)
    requires ':' !in product
    ensures ReadLine(Tag(k) + ":" + product) == Ignore
  {
    var line := Tag(k) + ":" + product;
    RecordKindTag(k, product);
    TagFacts(k);
    assert line[0] == Tag(k)[0];
    var t := Strip(line);
    StripKeepsPrefix(line, Tag(k) + ":");
    StripIsPrefix(line);
    PrefixFields(Tag(k), product, t);
    assert |Split(t, ':')| == 2;
    assert ReadLine(line) == ReadRecord(k, Split(t, ':'));
  }

  /** A prefix of `a:b` that reaches past the colon splits into `a` and
      what it keeps of `b`. */
  lemma PrefixFields(a: string, b: string, t: string)
    requires ':' !in a && ':' !in b
    requires a + ":" <= t && t <= a + ":" + b
    ensures |Split(t, ':')| == 2
  {
    var rest := t[|a| + 1..];
    assert rest == b[..|t| - |a| - 1];
    assert t == a + [':'] + rest;
    TwoFields(a, rest);
  }

  lemma TwoFields(a: string, b: string)
    requires ':' !in a && ':' !in b
    ensures Split(a + [':'] + b, ':') == [a, b]
  {
    SplitCons(a, b, ':');
    SplitNoSeparator(b, ':');
  }

  /** The date is whatever stands between the first and the second colon
      of a `DATE:` line; the rest of the line is dropped. */
  lemma ReadLineDateField(d: string, rest: string)
    requires ':' !in d
    ensures ReadLine("DATE:" + d + ":" + rest) == SetDate(d)
  {
    assert "DATE:" + d + ":" + rest == "DATE" + [':'] + d + [':'] + rest;
    StripSecondField("DATE", d, rest);
  }

  /** After `strip()`, a line `a:b:rest` has `b` as its second `:`-field. */
  lemma StripSecondField(a: string, b: string, rest: string)
    requires a != [] && !IsSpace(a[0]) && ':' !in a && ':' !in b
    ensures |Split(Strip(a + [':'] + b + [':'] + rest), ':')| >= 2
    ensures Split(Strip(a + [':'] + b + [':'] + rest), ':')[1] == b
  {
    var line := a + [':'] + b + [':'] + rest;
    var p := a + [':'] + b + [':'];
    assert p <= line && p[0] == a[0];
    StripKeepsPrefix(line, p);
    var t := Strip(line);
    var u := t[|p|..];
    assert t == p + u;
    SecondField(a, b, u);
  }

  /** Text that starts `a:b:` has `b` as its second `:`-field. */
  lemma SecondField(a: string, b: string, u: string)
    requires ':' !in a && ':' !in b
    ensures |Split(a + [':'] + b + [':'] + u, ':')| >= 2 && Split(a + [':'] + b + [':'] + u, ':')[1] == b
  {
    assert a + [':'] + b + [':'] + u == a + [':'] + (b + [':'] + u);
    SplitCons(a, b + [':'] + u, ':');
    SplitCons(b, u, ':');
  }

  /** A `DATE:` line as `save_data` writes it gives back the date, as long
      as the date has no colon and does not end in whitespace. */
  lemma ReadLineDate(d: string)
    requires ':' !in d
    requires d == [] || !IsSpace(d[|d| - 1])
    ensures ReadLine("DATE:" + d) == SetDate(d)
  {
    DateFields(d);
  }

  /** A date that ends in a space (`DATE:x :y` loads the date `x `) does
      not come back: the saved line `DATE:x ` reads as the date `x`. */
  lemma ReadLineDateLosesSpace(d: string)
    requires ':' !in d && d != [] && !IsSpace(d[|d| - 1])
    ensures ReadLine("DATE:" + d + " ") == SetDate(d)
  {
    var t := "DATE:" + d;
    var line := "DATE:" + d + " ";
    assert line == t + [' '] && t[0] == 'D';
    StripTrailingSpace(t, ' ');
    DateFields(d);
  }

  lemma DateFields(d: string)
    requires ':' !in d
    requires d == [] || !IsSpace(d[|d| - 1])
    ensures Split(Strip("DATE:" + d), ':') == ["DATE", d]
  {
    assert "DATE:" + d == "DATE" + [':'] + d;
    StripTwoFields("DATE", d);
  }

  /** Two colon-free fields joined by one colon, with no whitespace at
      either end, split back into the two. */
  lemma StripTwoFields(a: string, b: string)
    requires a != [] && !IsSpace(a[0]) && ':' !in a && ':' !in b
    requires b == [] || !IsSpace(b[|b| - 1])
    ensures Split(Strip(a + [':'] + b), ':') == [a, b]
  {
    var line := a + [':'] + b;
    assert line[0] == a[0];
    assert line[|line| - 1] == if b == [] then ':' else b[|b| - 1];
    StripUnchanged(line);
    TwoFields(a, b);
  }

  lemma ShowHasNoColon(n: int)
    ensures ':' !in Show(n) && '\n' !in Show(n)
  {
    var r := Show(n);
    forall i | 0 <= i < |r| ensures r[i] != ':' && r[i] != '\n' {
      assert IsDigit(r[i]) || r[i] == '-';
    }
  }

  lemma TagFacts(k: Kind)
    ensures Tag(k) != [] && !IsSpace(Tag(k)[0]) && ':' !in Tag(k) && '\n' !in Tag(k)
  {
  }

  /** The `:`-fields of a record line as `save_data` writes it. */
  lemma EntryFields(k: Kind, product: string, value: int)
    requires ':' !in product
    ensures Split(Strip(EntryLine(k, product, value)), ':') == [Tag(k), product, Show(value)]
  {
    var t, v := Tag(k), Show(value);
    var line := EntryLine(k, product, value);
    TagFacts(k);
    ShowHasNoColon(value);
    assert line == t + [':'] + product + [':'] + v;
    assert !IsSpace(v[|v| - 1]) by { assert IsDigit(v[|v| - 1]); }
    NonSpaceEnds(t, product + [':'] + v, [':']);
    StripUnchanged(line);
    ThreeFields(t, product, v);
  }

  lemma NonSpaceEnds(a: string, b: string, sep: string)
    requires a != [] && !IsSpace(a[0]) && b != [] && !IsSpace(b[|b| - 1])
    ensures (a + sep + b)[0] == a[0] && (a + sep + b)[|a + sep + b| - 1] == b[|b| - 1]
  {
  }

  lemma ThreeFields(a: string, b: string, c: string)
    requires ':' !in a && ':' !in b && ':' !in c
    ensures Split(a + [':'] + b + [':'] + c, ':') == [a, b, c]
  {
    assert a + [':'] + b + [':'] + c == a + [':'] + (b + [':'] + c);
    SplitCons(a, b + [':'] + c, ':');
    SplitCons(b, c, ':');
    SplitNoSeparator(c, ':');
  }

  /** A record line as `save_data` writes it is read back as the same
      count, as long as the product name has no colon. */
  lemma ReadEntryLine(k: Kind, product: string, value: int)
    requires ':' !in product
    ensures ReadLine(EntryLine(k, product, value)) == SetEntry(k, product, value)
  {
    RecordKindTag(k, product + ":" + Show(value));
    assert EntryLine(k, product, value) == Tag(k) + ":" + (product + ":" + Show(value));
    EntryFields(k, product, value);
    ParseShow(value);
  }

  /** A count whose field starts with one of U+001C..U+001F, as in
      `INIT:a:\x1c5`, aborts the load: `strip()` leaves it in the middle
      of the line and `int()` does not skip it. */
  lemma ReadLineSeparatorCount(k: Kind, product: string, c: char, value: int)
    requires ':' !in product && '\U{1c}' <= c <= '\U{1f}'
    ensures ReadLine(Tag(k) + ":" + product + ":" + [c] + Show(value)) == BadNumber
  {
    var v := Show(value);
    var w := [c] + v;
    ShowHasNoColon(value);
    assert ':' !in w by { assert w[1..] == v; }
    assert w[|w| - 1] == v[|v| - 1] && IsDigit(v[|v| - 1]);
    var line := Tag(k) + ":" + product + ":" + w;
    assert line == Tag(k) + ":" + product + ":" + [c] + Show(value);
    RecordKindTag(k, product + ":" + w);
    assert line == Tag(k) + ":" + (product + ":" + w);
    TagFacts(k);
    StripThreeFields(Tag(k), product, w);
    assert ReadLine(line) == ReadRecord(k, [Tag(k), product, w]);
    ParseRejectsSeparator(w);
  }

  /** Three colon-free fields joined by colons, with no whitespace at either
      end, split back into the three. */
  lemma StripThreeFields(a: string, b: string, c: string)
    requires a != [] && !IsSpace(a[0]) && c != [] && !IsSpace(c[|c| - 1])
    requires ':' !in a && ':' !in b && ':' !in c
    ensures Split(Strip(a + ":" + b + ":" + c), ':') == [a, b, c]
  {
    var line := a + [':'] + b + [':'] + c;
    assert a + ":" + b + ":" + c == line;
    NonSpaceEnds(a, b + [':'] + c, [':']);
    assert line == a + [':'] + (b + [':'] + c);
    StripUnchanged(line);
    ThreeFields(a, b, c);
  }

  // ---- applying the lines ----

  /** One line applied to the ledger; false when it aborts the load. */
  function ApplyLine(s: Snapshot, a: LineAction): (r: (Snapshot, bool))
    ensures r.1 <==> !a.BadNumber?
    ensures r.0.final == s.final
  {
    match a
    case SetDate(d) => (s.(date := d), true)
    case SetEntry(k, p, v) => (s.With(k, s.Get(k).Set(p, v)), true)
    case BadNumber => (s, false)
    case Ignore => (s, true)
  }

  /** The lines applied in file order; the first `BadNumber` stops the
      load and nothing after it is applied. */
  function ApplyLines(s: Snapshot, acts: seq<LineAction>): (r: (Snapshot, bool))
    ensures r.0.final == s.final
  {
    if acts == [] then (s, true)
    else
      var prev := ApplyLines(s, acts[..|acts| - 1]);
      if !prev.1 then prev else ApplyLine(prev.0, acts[|acts| - 1])
  }

  /** A line never takes a catalog product out of a table, nor the
      ledger out of shape. */
  lemma ApplyLineKeepsWellFormed(s: Snapshot, products: seq<string>, a: LineAction)
    requires WellFormed(s, products)
    ensures WellFormed(ApplyLine(s, a).0, products)
  {
    if a.SetEntry? {
      WithKeepsWellFormed(s, products, a.kind, s.Get(a.kind).Set(a.product, a.value));
    }
  }

  /** However many lines are applied, the ledger stays well formed. */
  lemma {:induction false} ApplyLinesKeepsWellFormed(s: Snapshot, products: seq<string>, acts: seq<LineAction>)
    requires WellFormed(s, products)
    ensures WellFormed(ApplyLines(s, acts).0, products)
  {
    if acts != [] {
      var front := acts[..|acts| - 1];
      ApplyLinesKeepsWellFormed(s, products, front);
      if ApplyLines(s, front).1 {
        ApplyLineKeepsWellFormed(ApplyLines(s, front).0, products, acts[|acts| - 1]);
      }
    }
  }

  /** `load_data`: no file leaves the ledger as it is; otherwise its lines
      are applied in order and final stock is re-derived, unless a line
      aborted the load, in which case the lines before it stay applied and
      final stock is not re-derived. */
  function Load(s: Snapshot, products: seq<string>, file: Option<string>): (r: Snapshot)
    requires WellFormed(s, products)
    ensures WellFormed(r, products)
    ensures file.None? ==> r == s
  {
    match file
    case None => s
    case Some(text) =>
      var applied := ApplyLines(s, ReadLines(text));
      ApplyLinesKeepsWellFormed(s, products, ReadLines(text));
      WellFormedCovers(applied.0, products);
      if applied.1 then Recompute(applied.0, products) else applied.0
  }

  /** No line of the file asks for an abort. */
  ghost predicate AllNumbers(acts: seq<LineAction>) {
    forall i :: 0 <= i < |acts| ==> !acts[i].BadNumber?
  }

  /** The load runs to the end exactly when no line aborts it. */
  lemma {:induction false} ApplyLinesOk(s: Snapshot, acts: seq<LineAction>)
    ensures ApplyLines(s, acts).1 <==> AllNumbers(acts)
  {
    if acts != [] {
      var n := |acts| - 1;
      var front := acts[..n];
      ApplyLinesOk(s, front);
      if AllNumbers(acts) {
        assert AllNumbers(front) by {
          forall i | 0 <= i < n ensures !front[i].BadNumber? {
            assert front[i] == acts[i];
          }
        }
      }
      if ApplyLines(s, acts).1 {
        forall i | 0 <= i < |acts| ensures !acts[i].BadNumber? {
          if i < n { assert front[i] == acts[i]; }
        }
      }
    }
  }

  /** After an abort, further lines change nothing. */
  lemma {:induction false} ApplyLinesSticky(s: Snapshot, acts: seq<LineAction>, more: seq<LineAction>)
    requires !ApplyLines(s, acts).1
    ensures ApplyLines(s, acts + more) == ApplyLines(s, acts)
  {
    if more == [] {
      assert acts + more == acts;
    } else {
      var front := more[..|more| - 1];
      ApplyLinesSticky(s, acts, front);
      AppendFront(acts, more);
    }
  }

  /** Lines are applied one after another: a load that got through `a`
      continues with `b` from where `a` left the ledger. */
  lemma {:induction false} ApplyLinesAppend(s: Snapshot, a: seq<LineAction>, b: seq<LineAction>)
    requires ApplyLines(s, a).1
    ensures ApplyLines(s, a + b) == ApplyLines(ApplyLines(s, a).0, b)
  {
    if b == [] {
      assert a + b == a;
    } else {
      var front := b[..|b| - 1];
      ApplyLinesAppend(s, a, front);
      AppendFront(a, b);
    }
  }

  /** The first line whose number `int()` rejects ends the load: the lines
      before it stay applied and no line after it is looked at. */
  lemma ApplyLinesStopsAtBad(s: Snapshot, acts: seq<LineAction>, i: nat)
    requires i < |acts| && acts[i] == BadNumber
    requires AllNumbers(acts[..i])
    ensures ApplyLines(s, acts) == (ApplyLines(s, acts[..i]).0, false)
  {
    ApplyLinesOk(s, acts[..i]);
    TakeTake(acts, i + 1, i);
    ApplyLinesSticky(s, acts[..i + 1], acts[i + 1..]);
    TakeDrop(acts, i + 1);
  }

  /** A load that meets a bad number keeps the lines before it, and final
      stock is not re-derived. */
  lemma LoadStopsAtBadLine(s: Snapshot, products: seq<string>, text: string, i: nat)
    requires WellFormed(s, products)
    requires i < |ReadLines(text)| && ReadLines(text)[i] == BadNumber
    requires AllNumbers(ReadLines(text)[..i])
    ensures Load(s, products, Some(text)) == ApplyLines(s, ReadLines(text)[..i]).0
    ensures Load(s, products, Some(text)).final == s.final
  {
    ApplyLinesStopsAtBad(s, ReadLines(text), i);
  }

  /** A load that runs to the end leaves the ledger invariant holding. */
  lemma LoadCompleted(s: Snapshot, products: seq<string>, text: string)
    requires WellFormed(s, products)
    requires AllNumbers(ReadLines(text))
    ensures Load(s, products, Some(text)) == Recompute(ApplyLines(s, ReadLines(text)).0, products)
    ensures Consistent(Load(s, products, Some(text)), products)
  {
    ApplyLinesOk(s, ReadLines(text));
  }

  // ---- reading back what was saved ----

  /** The actions of the lines one block of the file holds. */
  function Entries(k: Kind, keys: seq<string>, values: map<string, int>): (r: seq<LineAction>)
    requires Keyed(keys, values)
    ensures |r| == |keys|
  {
    if keys == [] then []
    else Entries(k, keys[..|keys| - 1], values) + [SetEntry(k, keys[|keys| - 1], values[keys[|keys| - 1]])]
  }

  function TableEntries(k: Kind, t: Table): seq<LineAction>
    requires Indexed(t)
  {
    Entries(k, t.order, t.values)
  }

  /** The keys of a table can be written on a line of the file and read back. */
  ghost predicate SafeKeys(t: Table) {
    forall i :: 0 <= i < |t.order| ==> ':' !in t.order[i] && '\n' !in t.order[i]
  }

  /** What `save_data` writes can be read back unchanged: no product name
      holds a colon or a newline, and the date holds neither and does not
      end in whitespace (which `strip()` would drop). */
  ghost predicate SafeForFile(s: Snapshot) {
    && ':' !in s.date && '\n' !in s.date
    && (s.date == [] || !IsSpace(s.date[|s.date| - 1]))
    && SafeKeys(s.initial) && SafeKeys(s.production) && SafeKeys(s.shipment) && SafeKeys(s.returned)
  }

  /** What the lines of a saved file do, in order. */
  function SavedActions(s: Snapshot): seq<LineAction>
    requires Indexed(s.initial) && Indexed(s.production) && Indexed(s.shipment) && Indexed(s.returned)
  {
    [SetDate(s.date)]
      + TableEntries(Initial, s.initial) + TableEntries(Production, s.production)
      + TableEntries(Shipment, s.shipment) + TableEntries(Returns, s.returned)
      + [Ignore]
  }

  lemma {:induction false} ReadBlock(k: Kind, keys: seq<string>, values: map<string, int>)
    requires Keyed(keys, values)
    requires forall i :: 0 <= i < |keys| ==> ':' !in keys[i]
    ensures ReadAll(Block(k, keys, values)) == Entries(k, keys, values)
  {
    if keys != [] {
      var n := |keys| - 1;
      ReadBlock(k, keys[..n], values);
      ReadBlockStep(k, keys, values);
    }
  }

  /** The last line of a block is read back as the last entry. */
  lemma ReadBlockStep(k: Kind, keys: seq<string>, values: map<string, int>)
    requires Keyed(keys, values)
    requires keys != [] && ':' !in keys[|keys| - 1]
    requires ReadAll(Block(k, keys[..|keys| - 1], values)) == Entries(k, keys[..|keys| - 1], values)
    ensures ReadAll(Block(k, keys, values)) == Entries(k, keys, values)
  {
    var n := |keys| - 1;
    var line := EntryLine(k, keys[n], values[keys[n]]);
    ReadAllAppend(Block(k, keys[..n], values), [line]);
    ReadOne(line);
    ReadEntryLine(k, keys[n], values[keys[n]]);
  }

  /** No line holds a newline. */
  ghost predicate SingleLines(lines: seq<string>) {
    forall i :: 0 <= i < |lines| ==> '\n' !in lines[i]
  }

  lemma SingleLinesAppend(a: seq<string>, b: seq<string>)
    requires SingleLines(a) && SingleLines(b)
    ensures SingleLines(a + b)
  {
    forall i | 0 <= i < |a + b| ensures '\n' !in (a + b)[i] {
      if i >= |a| { assert (a + b)[i] == b[i - |a|]; }
    }
  }

  lemma BlockSingleLines(k: Kind, keys: seq<string>, values: map<string, int>)
    requires Keyed(keys, values)
    requires forall i :: 0 <= i < |keys| ==> '\n' !in keys[i]
    ensures SingleLines(Block(k, keys, values))
  {
    BlockLines(k, keys, values);
    TagFacts(k);
    forall i | 0 <= i < |keys| ensures '\n' !in Block(k, keys, values)[i] {
      ShowHasNoColon(values[keys[i]]);
      var e := EntryLine(k, keys[i], values[keys[i]]);
      assert e == Tag(k) + ":" + keys[i] + ":" + Show(values[keys[i]]);
    }
  }

  lemma SaveSingleLines(s: Snapshot)
    requires Indexed(s.initial) && Indexed(s.production) && Indexed(s.shipment) && Indexed(s.returned)
    requires SafeForFile(s)
    ensures SingleLines(SaveLines(s))
  {
    var a, b, c, d := TableBlock(Initial, s.initial), TableBlock(Production, s.production),
      TableBlock(Shipment, s.shipment), TableBlock(Returns, s.returned);
    BlockSingleLines(Initial, s.initial.order, s.initial.values);
    BlockSingleLines(Production, s.production.order, s.production.values);
    BlockSingleLines(Shipment, s.shipment.order, s.shipment.values);
    BlockSingleLines(Returns, s.returned.order, s.returned.values);
    assert SingleLines(["DATE:" + s.date]);
    SingleLinesAppend(["DATE:" + s.date], a);
    SingleLinesAppend(["DATE:" + s.date] + a, b);
    SingleLinesAppend(["DATE:" + s.date] + a + b, c);
    SingleLinesAppend(["DATE:" + s.date] + a + b + c, d);
  }

  /** Reading the saved file gives the date, then one count per key of each
      input table in order, then the empty piece after the last newline. */
  lemma ReadSaved(s: Snapshot)
    requires Indexed(s.initial) && Indexed(s.production) && Indexed(s.shipment) && Indexed(s.returned)
    requires SafeForFile(s)
    ensures ReadLines(SaveText(s)) == SavedActions(s)
  {
    var h := "DATE:" + s.date;
    var a, b, c, d := TableBlock(Initial, s.initial), TableBlock(Production, s.production),
      TableBlock(Shipment, s.shipment), TableBlock(Returns, s.returned);
    SaveSingleLines(s);
    SplitUnlines(SaveLines(s));
    ReadSix(h, a, b, c, d, "");
    ReadLineDate(s.date);
    ReadBlock(Initial, s.initial.order, s.initial.values);
    ReadBlock(Production, s.production.order, s.production.values);
    ReadBlock(Shipment, s.shipment.order, s.shipment.values);
    ReadBlock(Returns, s.returned.order, s.returned.values);
    ReadLineUnknown("");
  }

  lemma ReadSix(h: string, a: seq<string>, b: seq<string>, c: seq<string>, d: seq<string>, z: string)
    ensures ReadAll([h] + a + b + c + d + [z])
      == [ReadLine(h)] + ReadAll(a) + ReadAll(b) + ReadAll(c) + ReadAll(d) + [ReadLine(z)]
  {
    ReadAllAppend([h], a);
    ReadAllAppend([h] + a, b);
    ReadAllAppend([h] + a + b, c);
    ReadAllAppend([h] + a + b + c, d);
    ReadAllAppend([h] + a + b + c + d, [z]);
    ReadOne(h);
    ReadOne(z);
  }

  lemma {:induction false} ApplyEntries(s: Snapshot, products: seq<string>, k: Kind, keys: seq<string>, values: map<string, int>)
    requires WellFormed(s, products)
    requires Keyed(keys, values)
    ensures ApplyLines(s, Entries(k, keys, values)) == (s.With(k, SetAll(s.Get(k), keys, values)), true)
  {
    if keys != [] {
      var n := |keys| - 1;
      var e := Entries(k, keys, values);
      ApplyEntries(s, products, k, keys[..n], values);
      assert e[..n] == Entries(k, keys[..n], values);
      WithWith(s, k, SetAll(s.Get(k), keys[..n], values), SetAll(s.Get(k), keys, values));
    }
  }

  /** Reading one saved block into a ledger whose table is a prefix of the
      saved one puts the saved table in its place. */
  lemma ApplyTable(s: Snapshot, products: seq<string>, k: Kind, u: Table)
    requires WellFormed(s, products)
    requires u.Valid() && s.Get(k).order <= u.order
    ensures Indexed(u)
    ensures ApplyLines(s, TableEntries(k, u)) == (s.With(k, u), true)
  {
    SetAllRebuilds(s.Get(k), u);
    ApplyEntries(s, products, k, u.order, u.values);
  }

  /** Every input table of `m` is a prefix of the same table of `l`: true
      of the fresh ledger and any well-formed `l`. */
  ghost predicate PrefixTables(m: Snapshot, l: Snapshot) {
    && m.initial.order <= l.initial.order && m.production.order <= l.production.order
    && m.shipment.order <= l.shipment.order && m.returned.order <= l.returned.order
  }

  /** Applying a saved file's lines restores the date and the four input
      tables and leaves final stock alone. */
  lemma ApplySaved(m: Snapshot, l: Snapshot, products: seq<string>)
    requires WellFormed(m, products) && WellFormed(l, products) && PrefixTables(m, l)
    ensures ApplyLines(m, SavedActions(l)) == (l.(final := m.final), true)
  {
    var h := [SetDate(l.date)];
    var ei, ep := TableEntries(Initial, l.initial), TableEntries(Production, l.production);
    var es, er := TableEntries(Shipment, l.shipment), TableEntries(Returns, l.returned);
    var s0 := m.(date := l.date);
    var s1 := s0.With(Initial, l.initial);
    var s2 := s1.With(Production, l.production);
    var s3 := s2.With(Shipment, l.shipment);
    var s4 := s3.With(Returns, l.returned);
    assert h[..0] == [];
    ApplyTable(s0, products, Initial, l.initial);
    ApplyLinesAppend(m, h, ei);
    ApplyTable(s1, products, Production, l.production);
    ApplyLinesAppend(m, h + ei, ep);
    ApplyTable(s2, products, Shipment, l.shipment);
    ApplyLinesAppend(m, h + ei + ep, es);
    ApplyTable(s3, products, Returns, l.returned);
    ApplyLinesAppend(m, h + ei + ep + es, er);
    ApplyLinesAppend(m, h + ei + ep + es + er, [Ignore]);
    assert [Ignore][..0] == [];
  }

  /** The round trip: loading what `save_data` wrote of ledger `l`, into a
      ledger whose tables are prefixes of `l`'s (the fresh ledger is one),
      gives `l` with final stock re-derived. */
  lemma LoadSaved(m: Snapshot, l: Snapshot, products: seq<string>)
    requires WellFormed(m, products) && WellFormed(l, products) && PrefixTables(m, l)
    requires SafeForFile(l)
    ensures Load(m, products, Some(SaveText(l))) == Recompute(l, products)
  {
    ReadSaved(l);
    ApplySaved(m, l, products);
    WellFormedCovers(l, products);
    RecomputeIgnoresFinal(l, products, m.final);
  }

  /** On start-up the tables are fresh; loading a saved consistent ledger
      then gives back exactly that ledger. */
  lemma FreshLoadRoundTrip(l: Snapshot, products: seq<string>, today: string)
    requires WellFormed(l, products) && Consistent(l, products) && SafeForFile(l)
    ensures Load(Fresh(products, today), products, Some(SaveText(l))) == l
  {
    LoadSaved(Fresh(products, today), l, products);
    RecomputeConsistent(l, products);
  }
}
