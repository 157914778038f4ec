/** The `load_ingredients` management command: a fold over the items of a
    JSON document that creates or updates ingredients by name and counts
    what it did. The ingredient table is seen as a map from the unique name
    to the measurement unit; reading and parsing the file are not modelled,
    the parsed document is the input. */
module IngredientLoader {
  import opened Wrappers
  import opened Text

  /** A JSON value in the position of a field: a string or anything else. */
  datatype Value = Str(s: string) | NonString

  /** One element of the top-level array: an object or anything else. */
  datatype Item = Object(fields: map<string, Value>) | NonObject

  /** The parsed file: an array or anything else. */
  datatype Document = Array(items: seq<Item>) | NonArray

  datatype Counters = Counters(created: nat, updated: nat, skipped: nat)

  /** What one item amounts to: a (name, unit) to store, a blank name, or
      an item whose reading raised an exception. */
  datatype Parsed = Entry(name: string, unit: string) | Blank | Malformed

  type Table = map<string, string>

  /** Whether `key` reads without raising: missing, or a string. */
  predicate Readable(fields: map<string, Value>, key: string) {
    key !in fields || fields[key].Str?
  }

  /** The raw text at `key` before stripping; missing reads as "". */
  function RawText(fields: map<string, Value>, key: string): string {
    if key in fields && fields[key].Str? then fields[key].s else ""
  }

  /** `item.get(key, '').strip()`: a missing key reads as the empty string,
      a value that is not a string makes `strip` raise (None). */
  function Field(fields: map<string, Value>, key: string): (r: Option<string>)
    ensures key !in fields ==> r == Some("")
    ensures key in fields && fields[key].Str? ==> r == Some(Strip(fields[key].s))
    ensures key in fields && fields[key].NonString? ==> r == None
    ensures r.Some? ==> Strip(r.value) == r.value
  {
    if key !in fields then Some("")
    else match fields[key]
      case Str(s) => (StripIdempotent(s); Some(Strip(s)))
      case NonString => None
  }

  /** One item: malformed when it is not an object or a field raises, blank
      when its name strips to nothing, otherwise the stripped name and
      unit. */
  function Parse(item: Item): (p: Parsed)
    ensures item.NonObject? ==> p == Malformed
    ensures item.Object? && !(Readable(item.fields, "name") && Readable(item.fields, "measurement_unit")) ==>
      p == Malformed
    ensures item.Object? && Readable(item.fields, "name") && Readable(item.fields, "measurement_unit")
            && AllSpace(RawText(item.fields, "name")) ==>
      p == Blank
    ensures item.Object? && Readable(item.fields, "name") && Readable(item.fields, "measurement_unit")
            && !AllSpace(RawText(item.fields, "name")) ==>
      p == Entry(Strip(RawText(item.fields, "name")), Strip(RawText(item.fields, "measurement_unit")))
    ensures p.Entry? ==> p.name != "" && Strip(p.name) == p.name && Strip(p.unit) == p.unit
  {
    match item
    case NonObject => Malformed
    case Object(f) =>
      var name := Field(f, "name");
      var unit := Field(f, "measurement_unit");
      if name.None? || unit.None? then Malformed
      else if name.value == "" then Blank
      else Entry(name.value, unit.value)
  }

  /** One iteration of the loop: `get_or_create` by name, the unit
      overwritten when the name already existed. */
  function Step(t: Table, c: Counters, p: Parsed): (r: (Table, Counters))
    ensures p.Entry? ==> r.0 == t[p.name := p.unit]
    ensures p.Entry? && p.name !in t ==> r.1 == c.(created := c.created + 1)
    ensures p.Entry? && p.name in t ==> r.1 == c.(updated := c.updated + 1)
    ensures !p.Entry? ==> r == (t, c.(skipped := c.skipped + 1))
  {
    match p
    case Entry(n, u) =>
      if n in t then (t[n := u], c.(updated := c.updated + 1))
      else (t[n := u], c.(created := c.created + 1))
    case _ => (t, c.(skipped := c.skipped + 1))
  }

  /** The unit of the last item in `items` that stores `n`, if any. */
  function LastUnit(items: seq<Item>, n: string): Option<string> {
    if |items| == 0 then None
    else
      match Parse(items[|items| - 1])
      case Entry(m, u) => if m == n then Some(u) else LastUnit(items[..|items| - 1], n)
      case _ => LastUnit(items[..|items| - 1], n)
  }

  /** What the table should say about `n` after loading `items`: the unit of
      its last occurrence, or what it said before when it never occurs. */
  function Expected(table: Table, items: seq<Item>, n: string): Option<string> {
    match LastUnit(items, n)
    case Some(u) => Some(u)
    case None => Get(table, n)
  }

  /** How many items were blank or raised. */
  function Skips(items: seq<Item>): nat {
    if |items| == 0 then 0
    else Skips(items[..|items| - 1]) + (if Parse(items[|items| - 1]).Entry? then 0 else 1)
  }

  /** The loop over the items, in order. Every item moves exactly one
      counter; the table ends up holding, for each name, the unit of its
      last occurrence and is otherwise unchanged; `created` is the number of
      names that were not there before. */
  function Load(table: Table, items: seq<Item>): (r: (Table, Counters))
    ensures r.1.created + r.1.updated + r.1.skipped == |items|
    ensures r.1.skipped == Skips(items)
    ensures forall n :: Get(r.0, n) == Expected(table, items, n)
    ensures table.Keys <= r.0.Keys
    ensures r.1.created == |r.0.Keys - table.Keys|
  {
    if |items| == 0 then (table, Counters(0, 0, 0))
    else
      var prev := Load(table, items[..|items| - 1]);
      LoadStep(table, items, prev);
      Step(prev.0, prev.1, Parse(items[|items| - 1]))
  }

  /** What `Load` promises about `r` as the result of loading `items`. */
  ghost predicate Loaded(table: Table, items: seq<Item>, r: (Table, Counters)) {
    && r.1.created + r.1.updated + r.1.skipped == |items|
    && r.1.skipped == Skips(items)
    && (forall n :: Get(r.0, n) == Expected(table, items, n))
    && table.Keys <= r.0.Keys
    && r.1.created == |r.0.Keys - table.Keys|
  }

  /** One more item: what held for all but the last item holds for all of
      them after one more step. */
  lemma LoadStep(table: Table, items: seq<Item>, prev: (Table, Counters))
    requires |items| > 0
    requires Loaded(table, items[..|items| - 1], prev)
    ensures Loaded(table, items, Step(prev.0, prev.1, Parse(items[|items| - 1])))
  {
    var p := Parse(items[|items| - 1]);
    StepKeys(table, prev.0, prev.1, p);
    StepExpected(table, items, prev.0, prev.1);
  }

  /** One step keeps the old names and counts a name it adds as created. */
  lemma StepKeys(table: Table, t: Table, c: Counters, p: Parsed)
    requires table.Keys <= t.Keys && c.created == |t.Keys - table.Keys|
    ensures table.Keys <= Step(t, c, p).0.Keys
    ensures Step(t, c, p).1.created == |Step(t, c, p).0.Keys - table.Keys|
  {
  }

  /** One step extends the last-occurrence characterisation by one item. */
  lemma StepExpected(table: Table, items: seq<Item>, t: Table, c: Counters)
    requires |items| > 0
    requires forall n :: Get(t, n) == Expected(table, items[..|items| - 1], n)
    ensures forall n :: Get(Step(t, c, Parse(items[|items| - 1])).0, n) == Expected(table, items, n)
  {
    var p := Parse(items[|items| - 1]);
    forall n ensures Get(Step(t, c, p).0, n) == Expected(table, items, n) {
      assert Get(t, n) == Expected(table, items[..|items| - 1], n);
    }
  }

  /** `Command.handle`: a document that is not an array changes nothing and
      reports zero everywhere. */
  function Handle(table: Table, doc: Document): (r: (Table, Counters))
    ensures doc.NonArray? ==> r == (table, Counters(0, 0, 0))
    ensures doc.Array? ==> r.1.created + r.1.updated + r.1.skipped == |doc.items|
    ensures doc.Array? ==> forall n :: Get(r.0, n) == Expected(table, doc.items, n)
    ensures doc.Array? ==> r.1.skipped == Skips(doc.items) && r.1.created == |r.0.Keys - table.Keys|
    ensures doc.Array? ==> forall n :: n !in table && LastUnit(doc.items, n).None? ==> n !in r.0
  {
    match doc
    case NonArray => (table, Counters(0, 0, 0))
    case Array(items) =>
      var r := Load(table, items);
      assert forall n :: n !in table && LastUnit(items, n).None? ==> n !in r.0 by {
        forall n | n !in table && LastUnit(items, n).None? ensures n !in r.0 {
          assert Get(r.0, n) == Expected(table, items, n);
        }
      }
      r
  }

  /** A table agrees with a map from names to optional units everywhere. */
  lemma SameTable(a: Table, b: Table)
    requires forall n :: Get(a, n) == Get(b, n)
    ensures a == b
  {
    assert forall n :: n in a <==> n in b by {
      forall n ensures n in a <==> n in b { assert Get(a, n).Some? <==> Get(b, n).Some?; }
    }
    assert forall n :: n in a ==> a[n] == b[n] by {
      forall n | n in a ensures a[n] == b[n] { assert Get(a, n) == Get(b, n); }
    }
  }

  /** Running the command a second time on the same file leaves the table as
      the first run left it and creates nothing. */
  lemma LoadIdempotent(table: Table, items: seq<Item>)
    ensures var t1 := Load(table, items).0;
            Load(t1, items).0 == t1 && Load(t1, items).1.created == 0
  {
    var t1 := Load(table, items).0;
    var t2 := Load(t1, items).0;
    forall n ensures Get(t2, n) == Get(t1, n) {
      assert Get(t2, n) == Expected(t1, items, n);
      assert Get(t1, n) == Expected(table, items, n);
    }
    SameTable(t2, t1);
  }

  /** Whitespace around a name or unit is ignored: `"  salt "` loads as
      `"salt"`. */
  lemma ParseTrims(f: map<string, Value>, key: string, w1: string, s: string, w2: string)
    requires AllSpace(w1) && AllSpace(w2)
    ensures Parse(Object(f[key := Str(w1 + s + w2)])) == Parse(Object(f[key := Str(s)]))
  {
    FieldTrims(f, key, w1, s, w2, "name");
    FieldTrims(f, key, w1, s, w2, "measurement_unit");
  }

  lemma FieldTrims(f: map<string, Value>, key: string, w1: string, s: string, w2: string, k: string)
    requires AllSpace(w1) && AllSpace(w2)
    ensures Field(f[key := Str(w1 + s + w2)], k) == Field(f[key := Str(s)], k)
  {
    StripPadded(w1, s, w2);
  }

  /** A malformed item is counted as skipped and the following items are
      still loaded: loading past it is loading without it. */
  lemma MalformedSkipped(table: Table, before: seq<Item>, bad: Item, after: seq<Item>, n: string)
    requires !Parse(bad).Entry?
    ensures Get(Load(table, before + [bad] + after).0, n) == Get(Load(table, before + after).0, n)
    ensures Load(table, before + [bad] + after).1.skipped == Load(table, before + after).1.skipped + 1
  {
    LastUnitSkip(before, bad, after, n);
    SkipsSkip(before, bad, after);
  }

  /** The last occurrence in `s + [x]` is `x` itself when it stores `n`. */
  lemma LastUnitSnoc(s: seq<Item>, x: Item, n: string)
    ensures LastUnit(s + [x], n)
         == if Parse(x).Entry? && Parse(x).name == n then Some(Parse(x).unit) else LastUnit(s, n)
  {
  }

  lemma SkipsSnoc(s: seq<Item>, x: Item)
    ensures Skips(s + [x]) == Skips(s) + (if Parse(x).Entry? then 0 else 1)
  {
  }

  lemma {:induction false} LastUnitSkip(before: seq<Item>, bad: Item, after: seq<Item>, n: string)
    requires !Parse(bad).Entry?
    ensures LastUnit(before + [bad] + after, n) == LastUnit(before + after, n)
    decreases |after|
  {
    if |after| == 0 {
      assert before + [bad] + after == before + [bad];
      assert before + after == before;
      LastUnitSnoc(before, bad, n);
    } else {
      var a := after[..|after| - 1];
      var x := after[|after| - 1];
      assert before + [bad] + after == (before + [bad] + a) + [x];
      assert before + after == (before + a) + [x];
      LastUnitSnoc(before + [bad] + a, x, n);
      LastUnitSnoc(before + a, x, n);
      LastUnitSkip(before, bad, a, n);
    }
  }

  lemma {:induction false} SkipsSkip(before: seq<Item>, bad: Item, after: seq<Item>)
    requires !Parse(bad).Entry?
    ensures Skips(before + [bad] + after) == Skips(before + after) + 1
    decreases |after|
  {
    if |after| == 0 {
      assert before + [bad] + after == before + [bad];
      assert before + after == before;
      SkipsSnoc(before, bad);
    } else {
      var a := after[..|after| - 1];
      var x := after[|after| - 1];
      assert before + [bad] + after == (before + [bad] + a) + [x];
      assert before + after == (before + a) + [x];
      SkipsSnoc(before + [bad] + a, x);
      SkipsSnoc(before + a, x);
      SkipsSkip(before, bad, a);
    }
  }
}
