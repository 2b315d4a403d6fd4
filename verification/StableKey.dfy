/**
 * Keys of the front end's GET cache: a canonical text of the request's parameters after the URL.
 */
module StableKey {
  import opened Text
  import opened Json

  // ---------------------------------------------------------------- sorting by key

  predicate Before(a: string, b: string) {
    if b == "" then false
    else if a == "" then true
    else a[0] < b[0] || (a[0] == b[0] && Before(a[1..], b[1..]))
  }

  function Insert<T>(p: Pair<T>, pairs: seq<Pair<T>>): seq<Pair<T>> {
    if pairs == [] || !Before(pairs[0].key, p.key) then [p] + pairs else [pairs[0]] + Insert(p, pairs[1..])
  }

  function Sort<T>(pairs: seq<Pair<T>>): seq<Pair<T>> {
    if pairs == [] then [] else Insert(pairs[0], Sort(pairs[1..]))
  }

  // ---------------------------------------------------------------- the printer

  function StableStringify(v: Value): string
    decreases v
  {
    match v
    case Arr(items) => "[" + Join(Texts(items), ",") + "]"
    case Obj(fields) => "{" + Join(EntryTexts(Sort(Entries(fields))), ",") + "}"
    case _ => Print(v)
  }

  function Texts(items: seq<Value>): seq<string>
    decreases items
  {
    if items == [] then [] else [StableStringify(items[0])] + Texts(items[1..])
  }

  /** Each key with the text of its value. */
  function Entries(fields: seq<Field>): seq<Pair<string>>
    decreases fields
  {
    if fields == [] then [] else [Pair(fields[0].key, StableStringify(fields[0].value))] + Entries(fields[1..])
  }

  function EntryTexts(entries: seq<Pair<string>>): seq<string> {
    if entries == [] then [] else [Quote(entries[0].key) + ":" + entries[0].value] + EntryTexts(entries[1..])
  }

  /** Parameters are an object, or absent. */
  function CacheKey(url: string, params: Option<seq<Field>>): string {
    if params.None? || params.value == [] then url else url + "?" + StableStringify(Obj(params.value))
  }

  // ---------------------------------------------------------------- which values count as the same

  predicate DistinctKeys<T(!new)>(pairs: seq<Pair<T>>) {
    forall i, j :: 0 <= i < j < |pairs| ==> pairs[i].key != pairs[j].key
  }

  /** Numbers have number texts, and objects have distinct keys, at every depth. */
  predicate Sane(v: Value) {
    match v
    case Num(t) => IsNumText(t)
    case Arr(items) => forall i :: 0 <= i < |items| ==> Sane(items[i])
    case Obj(fields) => DistinctKeys(fields) && forall i :: 0 <= i < |fields| ==> Sane(fields[i].value)
    case _ => true
  }

  /** The value of an object's key. */
  function Lookup(fields: seq<Field>, key: string): (r: Option<Value>)
    ensures r.Some? ==> exists i :: 0 <= i < |fields| && fields[i].key == key && fields[i].value == r.value
    ensures r.None? ==> forall i :: 0 <= i < |fields| ==> fields[i].key != key
  {
    if fields == [] then None
    else if fields[0].key == key then
      assert fields[0].key == key;
      Some(fields[0].value)
    else
      var r := Lookup(fields[1..], key);
      assert fields == [fields[0]] + fields[1..];
      r
  }

  /** Equality that looks at objects as maps: the order of fields does not count. */
  ghost predicate Same(v: Value, w: Value)
    decreases v
  {
    if v.Arr? && w.Arr? then
      |v.items| == |w.items| && forall i :: 0 <= i < |v.items| ==> Same(v.items[i], w.items[i])
    else if v.Obj? && w.Obj? then
      && (forall i :: 0 <= i < |v.fields| ==>
            var other := Lookup(w.fields, v.fields[i].key);
            other.Some? && Same(v.fields[i].value, other.value))
      && (forall j :: 0 <= j < |w.fields| ==> Lookup(v.fields, w.fields[j].key).Some?)
    else v == w
  }

  // ---------------------------------------------------------------- the canonical form

  /** The value with its objects' fields sorted, at every depth. */
  function Canon(v: Value): Value
    decreases v
  {
    match v
    case Arr(items) => Arr(CanonItems(items))
    case Obj(fields) => Obj(Sort(CanonFields(fields)))
    case _ => v
  }

  function CanonItems(items: seq<Value>): (r: seq<Value>)
    ensures |r| == |items|
    decreases items
  {
    if items == [] then [] else [Canon(items[0])] + CanonItems(items[1..])
  }

  function CanonFields(fields: seq<Field>): (r: seq<Field>)
    ensures |r| == |fields|
    decreases fields
  {
    if fields == [] then [] else [Pair(fields[0].key, Canon(fields[0].value))] + CanonFields(fields[1..])
  }

  // ---------------------------------------------------------------- the printer prints the canonical form

  function Printed(fields: seq<Field>): seq<Pair<string>> {
    if fields == [] then [] else [Pair(fields[0].key, Print(fields[0].value))] + Printed(fields[1..])
  }

  lemma {:induction false} PrintedInsert(f: Field, fields: seq<Field>)
    ensures Printed(Insert(f, fields)) == Insert(Pair(f.key, Print(f.value)), Printed(fields))
  {
    hide Before, Print;
    if fields == [] || !Before(fields[0].key, f.key) {
      assert ([f] + fields)[1..] == fields;
    } else {
      PrintedInsert(f, fields[1..]);
      assert ([fields[0]] + Insert(f, fields[1..]))[1..] == Insert(f, fields[1..]);
      assert Printed(fields)[1..] == Printed(fields[1..]);
    }
  }

  lemma {:induction false} PrintedSort(fields: seq<Field>)
    ensures Printed(Sort(fields)) == Sort(Printed(fields))
  {
    hide Before, Print, Insert;
    if fields != [] {
      PrintedSort(fields[1..]);
      PrintedInsert(fields[0], Sort(fields[1..]));
      assert Printed(fields)[1..] == Printed(fields[1..]);
    }
  }

  lemma {:induction false} JoinPrinted(fields: seq<Field>)
    ensures Join(EntryTexts(Printed(fields)), ",") == PrintFields(fields)
  {
    hide Print, Quote;
    if fields != [] {
      JoinPrinted(fields[1..]);
      var texts := EntryTexts(Printed(fields));
      assert Printed(fields)[1..] == Printed(fields[1..]);
      assert texts[1..] == EntryTexts(Printed(fields[1..]));
      assert texts[0] == PrintField(fields[0]);
      EntryTextsLength(Printed(fields));
      PrintedLength(fields);
    }
  }

  lemma {:induction false} EntryTextsLength(entries: seq<Pair<string>>)
    ensures |EntryTexts(entries)| == |entries|
  {
    if entries != [] { EntryTextsLength(entries[1..]); }
  }

  lemma {:induction false} PrintedLength(fields: seq<Field>)
    ensures |Printed(fields)| == |fields|
  {
    if fields != [] { PrintedLength(fields[1..]); }
  }

  lemma {:induction false} StringifyIsPrint(v: Value)
    ensures StableStringify(v) == Print(Canon(v))
    decreases v
  {
    hide Print, Sort;
    match v
    case Arr(items) =>
      ItemsArePrinted(items);
      PrintArr(CanonItems(items));
    case Obj(fields) =>
      EntriesArePrinted(fields);
      PrintedSort(CanonFields(fields));
      JoinPrinted(Sort(CanonFields(fields)));
      PrintObj(Sort(CanonFields(fields)));
    case _ =>
  }

  lemma PrintArr(items: seq<Value>)
    ensures Print(Arr(items)) == "[" + PrintItems(items) + "]"
  {
  }

  lemma PrintObj(fields: seq<Field>)
    ensures Print(Obj(fields)) == "{" + PrintFields(fields) + "}"
  {
  }

  lemma {:induction false} ItemsArePrinted(items: seq<Value>)
    ensures |Texts(items)| == |items|
    ensures Join(Texts(items), ",") == PrintItems(CanonItems(items))
    decreases items
  {
    hide Print, Canon, StableStringify;
    if items != [] {
      StringifyIsPrint(items[0]);
      ItemsArePrinted(items[1..]);
      assert Texts(items)[1..] == Texts(items[1..]);
      assert CanonItems(items)[1..] == CanonItems(items[1..]);
    }
  }

  lemma {:induction false} EntriesArePrinted(fields: seq<Field>)
    ensures Entries(fields) == Printed(CanonFields(fields))
    decreases fields
  {
    hide Print, Canon, StableStringify;
    if fields != [] {
      StringifyIsPrint(fields[0].value);
      EntriesArePrinted(fields[1..]);
      assert CanonFields(fields)[1..] == CanonFields(fields[1..]);
    }
  }

  // ---------------------------------------------------------------- sorting is canonical

  lemma {:induction false} BeforeIsTotal(a: string, b: string)
    ensures Before(a, b) || Before(b, a) || a == b
    ensures !(Before(a, b) && Before(b, a))
    ensures !Before(a, a)
  {
    if a != "" && b != "" {
      BeforeIsTotal(a[1..], b[1..]);
      assert a == [a[0]] + a[1..] && b == [b[0]] + b[1..];
    }
    if a != "" { BeforeIsTotal(a[1..], a[1..]); }
  }

  lemma {:induction false} BeforeIsTransitive(a: string, b: string, c: string)
    requires Before(a, b) && Before(b, c)
    ensures Before(a, c)
  {
    if a != "" && a[0] == b[0] == c[0] {
      BeforeIsTransitive(a[1..], b[1..], c[1..]);
    }
  }

  predicate Ascending<T(!new)>(pairs: seq<Pair<T>>) {
    forall i, j :: 0 <= i < j < |pairs| ==> Before(pairs[i].key, pairs[j].key)
  }

  lemma {:induction false} InsertHas<T>(p: Pair<T>, pairs: seq<Pair<T>>, q: Pair<T>)
    ensures q in Insert(p, pairs) <==> q == p || q in pairs
  {
    hide Before;
    if pairs != [] && Before(pairs[0].key, p.key) {
      InsertHas(p, pairs[1..], q);
      assert pairs == [pairs[0]] + pairs[1..];
    }
  }

  lemma {:induction false} SortHas<T>(pairs: seq<Pair<T>>, q: Pair<T>)
    ensures q in Sort(pairs) <==> q in pairs
  {
    hide Before, Insert;
    if pairs != [] {
      SortHas(pairs[1..], q);
      InsertHas(pairs[0], Sort(pairs[1..]), q);
      assert pairs == [pairs[0]] + pairs[1..];
    }
  }

  lemma {:induction false} InsertAscends<T(!new)>(p: Pair<T>, pairs: seq<Pair<T>>)
    requires Ascending(pairs) && forall q :: q in pairs ==> q.key != p.key
    ensures Ascending(Insert(p, pairs))
  {
    hide Before;
    if pairs != [] {
      BeforeIsTotal(pairs[0].key, p.key);
      assert pairs[0] in pairs;
      if Before(pairs[0].key, p.key) {
        var rest := Insert(p, pairs[1..]);
        InsertAscends(p, pairs[1..]);
        forall j | 0 <= j < |rest| ensures Before(pairs[0].key, rest[j].key) {
          InsertHas(p, pairs[1..], rest[j]);
          assert rest[j] in rest;
          if rest[j] != p {
            var k :| 0 <= k < |pairs[1..]| && pairs[1..][k] == rest[j];
            assert pairs[k + 1] == rest[j];
          }
        }
      } else {
        forall j | 0 <= j < |pairs| ensures Before(p.key, pairs[j].key) {
          if j > 0 { BeforeIsTransitive(p.key, pairs[0].key, pairs[j].key); }
        }
      }
    }
  }

  lemma {:induction false} SortAscends<T(!new)>(pairs: seq<Pair<T>>)
    requires DistinctKeys(pairs)
    ensures Ascending(Sort(pairs))
  {
    hide Before, Insert;
    if pairs != [] {
      SortAscends(pairs[1..]);
      forall q | q in Sort(pairs[1..]) ensures q.key != pairs[0].key {
        SortHas(pairs[1..], q);
        var k :| 0 <= k < |pairs[1..]| && pairs[1..][k] == q;
        assert pairs[k + 1] == q;
      }
      InsertAscends(pairs[0], Sort(pairs[1..]));
    }
  }

  predicate Within<T(==)>(a: seq<T>, b: seq<T>) {
    forall i :: 0 <= i < |a| ==> a[i] in b
  }

  lemma WithinTransitive<T>(a: seq<T>, b: seq<T>, c: seq<T>)
    requires Within(a, b) && Within(b, c)
    ensures Within(a, c)
  {
    forall i | 0 <= i < |a| ensures a[i] in c {
      var j :| 0 <= j < |b| && b[j] == a[i];
    }
  }

  lemma SortWithin<T>(pairs: seq<Pair<T>>)
    ensures Within(Sort(pairs), pairs) && Within(pairs, Sort(pairs))
  {
    hide Sort;
    forall i | 0 <= i < |Sort(pairs)| ensures Sort(pairs)[i] in pairs {
      SortHas(pairs, Sort(pairs)[i]);
    }
    forall i | 0 <= i < |pairs| ensures pairs[i] in Sort(pairs) {
      SortHas(pairs, pairs[i]);
    }
  }

  /** Two ascending lists of the same pairs are one list. */
  lemma {:induction false} AscendingIsUnique<T(!new)>(a: seq<Pair<T>>, b: seq<Pair<T>>)
    requires Ascending(a) && Ascending(b) && Within(a, b) && Within(b, a)
    ensures a == b
  {
    hide Before;
    if a == [] {
      assert b == [];
    } else {
      AscendingHeads(a, b);
      TailWithin(a, b);
      TailWithin(b, a);
      AscendingIsUnique(a[1..], b[1..]);
      assert a == [a[0]] + a[1..] && b == [b[0]] + b[1..];
    }
  }

  lemma AscendingHeads<T(!new)>(a: seq<Pair<T>>, b: seq<Pair<T>>)
    requires Ascending(a) && Ascending(b) && a != [] && Within(a, b) && Within(b, a)
    ensures b != [] && a[0] == b[0]
  {
    hide Before;
    assert a[0] in b;
    BeforeIsTotal(a[0].key, b[0].key);
  }

  lemma TailWithin<T(!new)>(a: seq<Pair<T>>, b: seq<Pair<T>>)
    requires Ascending(a) && a != [] && b != [] && Within(a, b) && a[0] == b[0]
    ensures Within(a[1..], b[1..])
  {
    hide Before;
    forall i | 0 <= i < |a[1..]| ensures a[1..][i] in b[1..] {
      BeforeIsTotal(a[0].key, a[i + 1].key);
      var j :| 0 <= j < |b| && b[j] == a[i + 1];
      assert b[1..][j - 1] == a[i + 1];
    }
  }

  // ---------------------------------------------------------------- canonical forms are sameness

  lemma {:induction false} CanonItemAt(items: seq<Value>, i: nat)
    requires i < |items|
    ensures CanonItems(items)[i] == Canon(items[i])
  {
    hide Canon;
    if i > 0 { CanonItemAt(items[1..], i - 1); }
  }

  lemma {:induction false} CanonFieldAt(fields: seq<Field>, i: nat)
    requires i < |fields|
    ensures CanonFields(fields)[i] == Pair(fields[i].key, Canon(fields[i].value))
  {
    hide Canon;
    if i > 0 { CanonFieldAt(fields[1..], i - 1); }
  }

  lemma CanonFieldsDistinct(fields: seq<Field>)
    requires DistinctKeys(fields)
    ensures DistinctKeys(CanonFields(fields))
  {
    hide Canon, CanonFields;
    forall i | 0 <= i < |fields| ensures CanonFields(fields)[i].key == fields[i].key {
      CanonFieldAt(fields, i);
    }
  }

  /** A field of one object is, canonically, a field of the other. */
  ghost predicate Covered(f: seq<Field>, g: seq<Field>) {
    forall i :: 0 <= i < |f| ==> Pair(f[i].key, Canon(f[i].value)) in CanonFields(g)
  }

  lemma CoveredIsWithin(f: seq<Field>, g: seq<Field>)
    ensures Covered(f, g) <==> Within(CanonFields(f), CanonFields(g))
  {
    hide Canon, CanonFields;
    forall i | 0 <= i < |f| ensures CanonFields(f)[i] == Pair(f[i].key, Canon(f[i].value)) {
      CanonFieldAt(f, i);
    }
  }

  lemma SortsAgree(a: seq<Field>, b: seq<Field>)
    requires DistinctKeys(a) && DistinctKeys(b)
    ensures Sort(a) == Sort(b) <==> Within(a, b) && Within(b, a)
  {
    hide Sort, Ascending, Within;
    SortAscends(a);
    SortAscends(b);
    SortWithin(a);
    SortWithin(b);
    if Sort(a) == Sort(b) {
      WithinTransitive(a, Sort(a), b);
      WithinTransitive(b, Sort(b), a);
    }
    if Within(a, b) && Within(b, a) {
      WithinTransitive(Sort(a), a, b);
      WithinTransitive(Sort(a), b, Sort(b));
      WithinTransitive(Sort(b), b, a);
      WithinTransitive(Sort(b), a, Sort(a));
      AscendingIsUnique(Sort(a), Sort(b));
    }
  }

  lemma CanonObjIsCover(f: seq<Field>, g: seq<Field>)
    requires DistinctKeys(f) && DistinctKeys(g)
    ensures Canon(Obj(f)) == Canon(Obj(g)) <==> Covered(f, g) && Covered(g, f)
  {
    hide Sort, CanonFields, Within, Covered;
    CanonFieldsDistinct(f);
    CanonFieldsDistinct(g);
    SortsAgree(CanonFields(f), CanonFields(g));
    CoveredIsWithin(f, g);
    CoveredIsWithin(g, f);
  }

  /** Canonical forms are equal exactly when the values are the same up to the order of fields. */
  lemma {:induction false} CanonIsSame(v: Value, w: Value)
    requires Sane(v) && Sane(w)
    ensures Canon(v) == Canon(w) <==> Same(v, w)
    decreases v
  {
    hide Sort, CanonItems, CanonFields;
    if v.Arr? && w.Arr? {
      CanonArrIsSame(v.items, w.items);
    } else if v.Obj? && w.Obj? {
      CanonObjIsCover(v.fields, w.fields);
      CoverIsSame(v.fields, w.fields);
    }
  }

  lemma {:induction false} CanonArrIsSame(v: seq<Value>, w: seq<Value>)
    requires Sane(Arr(v)) && Sane(Arr(w))
    ensures CanonItems(v) == CanonItems(w) <==> Same(Arr(v), Arr(w))
    decreases v
  {
    hide CanonItems, Canon;
    if |v| == |w| {
      forall i | 0 <= i < |v|
        ensures CanonItems(v)[i] == Canon(v[i]) && CanonItems(w)[i] == Canon(w[i])
        ensures Canon(v[i]) == Canon(w[i]) <==> Same(v[i], w[i])
      {
        CanonItemAt(v, i);
        CanonItemAt(w, i);
        CanonIsSame(v[i], w[i]);
      }
    }
  }

  lemma LookupAt(fields: seq<Field>, i: nat)
    requires DistinctKeys(fields) && i < |fields|
    ensures Lookup(fields, fields[i].key) == Some(fields[i].value)
  {
    hide Lookup;
    var r := Lookup(fields, fields[i].key);
    if r.Some? {
      var j :| 0 <= j < |fields| && fields[j].key == fields[i].key && fields[j].value == r.value;
      assert j == i;
    }
  }

  /** The canonical form of x is one of g's exactly when g maps x's key to a value with the same canonical form. */
  lemma MatchedByLookup(x: Field, g: seq<Field>)
    requires DistinctKeys(g)
    ensures Pair(x.key, Canon(x.value)) in CanonFields(g) <==>
            Lookup(g, x.key).Some? && Canon(x.value) == Canon(Lookup(g, x.key).value)
  {
    hide Canon, CanonFields, Lookup;
    forall j | 0 <= j < |g|
      ensures CanonFields(g)[j] == Pair(g[j].key, Canon(g[j].value)) && Lookup(g, g[j].key) == Some(g[j].value)
    {
      CanonFieldAt(g, j);
      LookupAt(g, j);
    }
    var r := Lookup(g, x.key);
    if r.Some? && Canon(x.value) == Canon(r.value) {
      var j :| 0 <= j < |g| && g[j].key == x.key && g[j].value == r.value;
      assert CanonFields(g)[j] == Pair(x.key, Canon(x.value));
    }
  }

  lemma {:induction false} CoverIsSame(f: seq<Field>, g: seq<Field>)
    requires Sane(Obj(f)) && Sane(Obj(g))
    ensures Covered(f, g) && Covered(g, f) <==> Same(Obj(f), Obj(g))
    decreases f
  {
    hide CanonFields, Canon, Same, Lookup;
    forall i | 0 <= i < |f| ensures FieldAgrees(f[i], g) <==> Pair(f[i].key, Canon(f[i].value)) in CanonFields(g) {
      MatchedByLookup(f[i], g);
      var r := Lookup(g, f[i].key);
      if r.Some? {
        var j :| 0 <= j < |g| && g[j].key == f[i].key && g[j].value == r.value;
        CanonIsSame(f[i].value, r.value);
      }
    }
    SameObj(f, g);
    if Same(Obj(f), Obj(g)) {
      forall j | 0 <= j < |g| ensures Pair(g[j].key, Canon(g[j].value)) in CanonFields(f) {
        var y := Lookup(f, g[j].key);
        var i :| 0 <= i < |f| && f[i].key == g[j].key && f[i].value == y.value;
        LookupAt(g, j);
        assert FieldAgrees(f[i], g);
        CanonIsSame(f[i].value, g[j].value);
        CanonFieldAt(f, i);
        assert CanonFields(f)[i] in CanonFields(f);
      }
    } else if Covered(g, f) {
      forall j | 0 <= j < |g| ensures Lookup(f, g[j].key).Some? {
        MatchedByLookup(g[j], f);
      }
    }
  }

  /** The object g has the field x, up to sameness. */
  ghost predicate FieldAgrees(x: Field, g: seq<Field>) {
    Lookup(g, x.key).Some? && Same(x.value, Lookup(g, x.key).value)
  }

  lemma SameObj(f: seq<Field>, g: seq<Field>)
    ensures Same(Obj(f), Obj(g)) <==>
            && (forall i :: 0 <= i < |f| ==> FieldAgrees(f[i], g))
            && (forall j :: 0 <= j < |g| ==> Lookup(f, g[j].key).Some?)
  {
    hide Lookup;
    var v, w := Obj(f), Obj(g);
    assert v.fields == f && w.fields == g;
  }

  // ---------------------------------------------------------------- the printer is exact

  lemma {:induction false} CanonIsWf(v: Value)
    requires Sane(v)
    ensures Wf(Canon(v))
    decreases v
  {
    hide Sort, CanonItems, CanonFields;
    match v
    case Arr(items) =>
      forall i | 0 <= i < |items| ensures Wf(CanonItems(items)[i]) {
        CanonItemAt(items, i);
        CanonIsWf(items[i]);
      }
    case Obj(fields) =>
      var sorted := Sort(CanonFields(fields));
      SortWithin(CanonFields(fields));
      forall k | 0 <= k < |sorted| ensures Wf(sorted[k].value) {
        assert sorted[k] in CanonFields(fields);
        var i :| 0 <= i < |fields| && CanonFields(fields)[i] == sorted[k];
        CanonFieldAt(fields, i);
        CanonIsWf(fields[i].value);
      }
    case _ =>
  }

  /** Two values have the same text exactly when they differ at most in the order of their fields. */
  lemma StringifyExactly(v: Value, w: Value)
    requires Sane(v) && Sane(w)
    ensures StableStringify(v) == StableStringify(w) <==> Same(v, w)
  {
    hide *;
    StringifyIsPrint(v);
    StringifyIsPrint(w);
    CanonIsWf(v);
    CanonIsWf(w);
    NothingFollows(Canon(v), Canon(w));
    CanonIsSame(v, w);
  }

  lemma NothingFollows(v: Value, w: Value)
    requires Wf(v) && Wf(w)
    ensures Print(v) == Print(w) <==> v == w
  {
    hide Print, Wf;
    PrintIsInjective(v, w, "", "");
    assert Print(v) + "" == Print(v) && Print(w) + "" == Print(w);
  }

  // ---------------------------------------------------------------- no text inside another's end

  /** Where a scan of a JSON text stands: outside strings, in one, or after a backslash in one. */
  datatype Place = Out | In | Esc

  /** The text ends outside strings; there it holds no backslash and no question mark. */
  predicate Clean(t: string, at: Place) {
    if t == "" then at == Out
    else
      match at
      case Out => t[0] != '\\' && t[0] != '?' && Clean(t[1..], if t[0] == '"' then In else Out)
      case In => Clean(t[1..], if t[0] == '"' then Out else if t[0] == '\\' then Esc else In)
      case Esc => t[0] != '?' && Clean(t[1..], In)
  }

  predicate Plain(a: string) {
    forall i :: 0 <= i < |a| ==> a[i] != '"' && a[i] != '\\' && a[i] != '?'
  }

  /** Characters without a meaning for the scan, outside strings or inside. */
  lemma {:induction false} CleanPlain(a: string, rest: string, at: Place)
    requires at != Esc && Clean(rest, at) && Plain(a)
    ensures Clean(a + rest, at)
  {
    if a == "" {
      assert a + rest == rest;
    } else {
      assert (a + rest)[1..] == a[1..] + rest;
      CleanPlain(a[1..], rest, at);
    }
  }

  lemma MarksArePlain()
    ensures Plain("[") && Plain("]") && Plain("{") && Plain("}") && Plain(",") && Plain(":")
  {
  }

  /** An escape is one harmless character, or a backslash, the character it escapes, and digits. */
  lemma EscapeShape(c: char)
    ensures var e := EscapeChar(c);
            && e != ""
            && (|e| == 1 ==> e[0] != '"' && e[0] != '\\')
            && (|e| > 1 ==> e[0] == '\\' && e[1] != '?' && Plain(e[2..]))
  {
    if c < ' ' {
      HexIsPlain(c as nat / 16);
      HexIsPlain(c as nat % 16);
    }
  }

  lemma HexIsPlain(n: nat)
    requires n < 16
    ensures HexDigit(n) != '"' && HexDigit(n) != '\\' && HexDigit(n) != '?'
  {
  }

  lemma CleanEscape(c: char, rest: string)
    requires Clean(rest, In)
    ensures Clean(EscapeChar(c) + rest, In)
  {
    hide EscapeChar, Plain;
    var e := EscapeChar(c);
    var t := e + rest;
    EscapeShape(c);
    if |e| == 1 {
      assert t[1..] == rest;
    } else {
      CleanPlain(e[2..], rest, In);
      assert t[1..][1..] == e[2..] + rest;
    }
  }

  lemma {:induction false} CleanQuoted(s: string, rest: string)
    requires Clean(rest, Out)
    ensures Clean(EscapeBody(s) + "\"" + rest, In)
  {
    hide EscapeChar;
    if s == "" {
      assert (EscapeBody(s) + "\"" + rest)[1..] == rest;
    } else {
      CleanQuoted(s[1..], rest);
      var tail := EscapeBody(s[1..]) + "\"" + rest;
      CleanEscape(s[0], tail);
      assert EscapeBody(s) + "\"" + rest == EscapeChar(s[0]) + tail;
    }
  }

  lemma CleanQuote(s: string, rest: string)
    requires Clean(rest, Out)
    ensures Clean(Quote(s) + rest, Out)
  {
    hide EscapeBody;
    CleanQuoted(s, rest);
    assert (Quote(s) + rest)[1..] == EscapeBody(s) + "\"" + rest;
  }

  lemma {:induction false} CleanPrint(v: Value, rest: string)
    requires Wf(v) && Clean(rest, Out)
    ensures Clean(Print(v) + rest, Out)
    decreases v
  {
    hide Clean, Quote, PrintItems, PrintFields;
    match v
    case Str(s) => CleanQuote(s, rest);
    case Arr(items) =>
      CleanBracket("]", rest);
      CleanItems(items, "]" + rest);
      CleanBracket("[", PrintItems(items) + ("]" + rest));
      assert Print(v) + rest == "[" + (PrintItems(items) + ("]" + rest));
    case Obj(fields) =>
      CleanBracket("}", rest);
      CleanFields(fields, "}" + rest);
      CleanBracket("{", PrintFields(fields) + ("}" + rest));
      assert Print(v) + rest == "{" + (PrintFields(fields) + ("}" + rest));
    case _ =>
      WordsArePlain(v);
      CleanPlain(Print(v), rest, Out);
  }

  lemma CleanBracket(b: string, rest: string)
    requires b in ["[", "]", "{", "}"] && Clean(rest, Out)
    ensures Clean(b + rest, Out)
  {
    hide Clean;
    CleanPlain(b, rest, Out);
  }

  lemma WordsArePlain(v: Value)
    requires Wf(v) && !v.Str? && !v.Arr? && !v.Obj?
    ensures Plain(Print(v))
  {
    if v.Num? {
      forall i | 0 <= i < |v.text| ensures v.text[i] in "0123456789+-.eE" {
        assert v.text[i] in v.text;
      }
    }
  }

  lemma {:induction false} CleanItems(items: seq<Value>, rest: string)
    requires Wf(Arr(items)) && Clean(rest, Out)
    ensures Clean(PrintItems(items) + rest, Out)
    decreases items
  {
    hide Clean, Print, Plain;
    MarksArePlain();
    if items == [] {
      assert "" + rest == rest;
    } else if |items| == 1 {
      CleanPrint(items[0], rest);
    } else {
      var tail := PrintItems(items[1..]) + rest;
      CleanItems(items[1..], rest);
      CleanPlain(",", tail, Out);
      CleanPrint(items[0], "," + tail);
      assert PrintItems(items) + rest == Print(items[0]) + ("," + tail);
    }
  }

  lemma {:induction false} CleanField(f: Field, rest: string)
    requires Wf(f.value) && Clean(rest, Out)
    ensures Clean(PrintField(f) + rest, Out)
    decreases f
  {
    hide Clean, Print, Quote, Plain;
    MarksArePlain();
    var tail := Print(f.value) + rest;
    CleanPrint(f.value, rest);
    CleanPlain(":", tail, Out);
    CleanQuote(f.key, ":" + tail);
    assert PrintField(f) + rest == Quote(f.key) + (":" + tail);
  }

  lemma {:induction false} CleanFields(fields: seq<Field>, rest: string)
    requires Wf(Obj(fields)) && Clean(rest, Out)
    ensures Clean(PrintFields(fields) + rest, Out)
    decreases fields
  {
    hide Clean, PrintField, Plain;
    MarksArePlain();
    if fields == [] {
      assert "" + rest == rest;
    } else if |fields| == 1 {
      CleanField(fields[0], rest);
    } else {
      var tail := PrintFields(fields[1..]) + rest;
      CleanFields(fields[1..], rest);
      CleanPlain(",", tail, Out);
      CleanField(fields[0], "," + tail);
      assert PrintFields(fields) + rest == PrintField(fields[0]) + ("," + tail);
    }
  }

  /** A clean text stays clean from the place that a scan of its first part has reached. */
  lemma {:induction false} CleanRest(a: string, t: string, at: Place)
    requires Clean(a + t, at)
    ensures exists p :: Clean(t, p)
    ensures t != "" && t[0] == '?' ==> Clean(t, In)
  {
    if a == "" {
      assert a + t == t;
    } else {
      assert (a + t)[1..] == a[1..] + t;
      var next := if at == Esc then In
                  else if a[0] == '"' then (if at == Out then In else Out)
                  else if a[0] == '\\' then Esc
                  else at;
      CleanRest(a[1..], t, next);
    }
  }

  /** A text cannot be clean from outside and from inside a string: the quotes would have to pair up both ways. */
  lemma {:induction false} NotCleanBothWays(t: string)
    ensures !(Clean(t, Out) && Clean(t, In))
  {
    if t != "" {
      NotCleanBothWays(t[1..]);
    }
  }

  /** A question mark and a whole text never make up the end of another text. */
  lemma NoTextEndsAnother(v: Value, w: Value, a: string)
    requires Sane(v) && Sane(w)
    ensures a + "?" + StableStringify(v) != StableStringify(w)
  {
    hide StableStringify, Canon, Print;
    StringifyIsPrint(v);
    StringifyIsPrint(w);
    CanonIsWf(v);
    CanonIsWf(w);
    var t, u := StableStringify(v), StableStringify(w);
    CleanPrint(Canon(v), "");
    CleanPrint(Canon(w), "");
    assert Print(Canon(v)) + "" == t && Print(Canon(w)) + "" == u;
    if a + "?" + t == u {
      assert a + ("?" + t) == u;
      CleanRest(a, "?" + t, Out);
      assert ("?" + t)[1..] == t;
      NotCleanBothWays(t);
    }
  }

  // ---------------------------------------------------------------- cache keys

  predicate NoParams(params: Option<seq<Field>>) {
    params.None? || params.value == []
  }

  /** Absent and empty parameters are the same request; others are compared as objects. */
  ghost predicate SameParams(p: Option<seq<Field>>, q: Option<seq<Field>>) {
    if NoParams(p) || NoParams(q) then NoParams(p) && NoParams(q) else Same(Obj(p.value), Obj(q.value))
  }

  predicate SaneParams(p: Option<seq<Field>>) {
    p.Some? ==> Sane(Obj(p.value))
  }

  lemma BothHaveParams(url: string, p: seq<Field>, other: string, q: seq<Field>)
    requires Sane(Obj(p)) && Sane(Obj(q))
    ensures url + "?" + StableStringify(Obj(p)) == other + "?" + StableStringify(Obj(q))
            <==> url == other && Same(Obj(p), Obj(q))
  {
    hide StableStringify, Same, Sane;
    var t, u := StableStringify(Obj(p)), StableStringify(Obj(q));
    StringifyExactly(Obj(p), Obj(q));
    if url + "?" + t == other + "?" + u {
      SplitAtMark(Obj(p), Obj(q), url, other);
      assert (url + "?" + t)[|url| + 1..] == t && (other + "?" + u)[|other| + 1..] == u;
      assert (url + "?" + t)[..|url|] == url && (other + "?" + u)[..|other|] == other;
    }
  }

  lemma SplitAtMark(v: Value, w: Value, url: string, other: string)
    requires Sane(v) && Sane(w)
    requires url + "?" + StableStringify(v) == other + "?" + StableStringify(w)
    ensures |url| == |other|
  {
    hide StableStringify, Sane;
    var t, u := StableStringify(v), StableStringify(w);
    if |url| < |other| {
      var a := TailBeforeMark(url, t, other, u);
      NoTextEndsAnother(w, v, a);
    } else if |other| < |url| {
      var a := TailBeforeMark(other, u, url, t);
      NoTextEndsAnother(v, w, a);
    }
  }

  lemma TailBeforeMark(url: string, t: string, other: string, u: string) returns (a: string)
    requires url + "?" + t == other + "?" + u && |url| < |other|
    ensures t == a + "?" + u
  {
    var n := |url| + 1;
    var whole := url + "?" + t;
    a := other[n..];
    assert whole[n..] == t;
    assert (other + "?" + u)[n..] == a + "?" + u;
  }

  /**
   * When two keys collide: for the same request, or when one request has no parameters and its
   * URL is the other's key already.
   */
  lemma CacheKeyExactly(url: string, p: Option<seq<Field>>, other: string, q: Option<seq<Field>>)
    requires SaneParams(p) && SaneParams(q)
    ensures CacheKey(url, p) == CacheKey(other, q) <==>
            || (url == other && SameParams(p, q))
            || (NoParams(p) && !NoParams(q) && url == CacheKey(other, q))
            || (!NoParams(p) && NoParams(q) && other == CacheKey(url, p))
  {
    hide StableStringify, Same, Sane;
    if !NoParams(p) && !NoParams(q) {
      BothHaveParams(url, p.value, other, q.value);
    }
  }

  /** So URLs without a question mark never collide. */
  lemma PlainUrlsDoNotCollide(url: string, p: Option<seq<Field>>, other: string, q: Option<seq<Field>>)
    requires SaneParams(p) && SaneParams(q) && '?' !in url && '?' !in other
    ensures CacheKey(url, p) == CacheKey(other, q) <==> url == other && SameParams(p, q)
  {
    hide StableStringify, Same, Sane;
    CacheKeyExactly(url, p, other, q);
    if !NoParams(p) { assert CacheKey(url, p)[|url|] == '?'; }
    if !NoParams(q) { assert CacheKey(other, q)[|other|] == '?'; }
  }

  /** Every request with parameters collides with some other one: the bare URL that spells its key. */
  lemma EveryKeyCollides(url: string, p: Option<seq<Field>>)
    requires SaneParams(p) && !NoParams(p)
    ensures CacheKey(CacheKey(url, p), None) == CacheKey(url, p)
    ensures CacheKey(url, p) != url && !SameParams(None, p) && '?' in CacheKey(url, p)
  {
    hide StableStringify;
    assert CacheKey(url, p)[|url|] == '?';
    assert |CacheKey(url, p)| > |url|;
  }

  // ---------------------------------------------------------------- the texts themselves

  /** Keys are compared at their first difference; what is only longer comes later. */
  lemma {:induction false} BeforeIs(a: string, b: string)
    ensures Before(a, b) <==> exists k :: 0 <= k < |b| && k <= |a| && a[..k] == b[..k] && (k == |a| || a[k] < b[k])
  {
    if a == "" || b == "" {
      if b != "" { assert a[..0] == b[..0]; }
    } else {
      BeforeIs(a[1..], b[1..]);
      if Before(a, b) { DifferenceLater(a, b); }
      if k :| 0 <= k < |b| && k <= |a| && a[..k] == b[..k] && (k == |a| || a[k] < b[k]) {
        if k > 0 {
          assert a[0] == a[..k][0] && b[0] == b[..k][0];
          assert a[1..][..k - 1] == a[..k][1..] && b[1..][..k - 1] == b[..k][1..];
        }
      }
    }
  }

  lemma DifferenceLater(a: string, b: string)
    requires a != "" && b != "" && Before(a, b)
    requires a[0] == b[0] ==> exists k :: 0 <= k < |b[1..]| && k <= |a[1..]| && a[1..][..k] == b[1..][..k]
                                && (k == |a[1..]| || a[1..][k] < b[1..][k])
    ensures exists k :: 0 <= k < |b| && k <= |a| && a[..k] == b[..k] && (k == |a| || a[k] < b[k])
  {
    if a[0] < b[0] {
      assert a[..0] == b[..0];
    } else {
      var k :| 0 <= k < |b[1..]| && k <= |a[1..]| && a[1..][..k] == b[1..][..k] && (k == |a[1..]| || a[1..][k] < b[1..][k]);
      assert a[..k + 1] == [a[0]] + a[1..][..k] && b[..k + 1] == [b[0]] + b[1..][..k];
      assert a[..k + 1] == b[..k + 1];
    }
  }

  lemma {:induction false} TextsAre(items: seq<Value>)
    ensures Texts(items) == Each(items, StableStringify)
  {
    hide StableStringify;
    if items != [] { TextsAre(items[1..]); }
  }

  lemma {:induction false} EntriesAre(fields: seq<Field>)
    ensures Entries(fields) == seq(|fields|, i requires 0 <= i < |fields| => Pair(fields[i].key, StableStringify(fields[i].value)))
  {
    hide StableStringify;
    if fields != [] { EntriesAre(fields[1..]); }
  }

  lemma {:induction false} EntryTextsAre(entries: seq<Pair<string>>)
    ensures EntryTexts(entries) == Each(entries, (e: Pair<string>) => Quote(e.key) + ":" + e.value)
  {
    hide Quote;
    if entries != [] { EntryTextsAre(entries[1..]); }
  }

  lemma ArrayText(items: seq<Value>)
    ensures StableStringify(Arr(items)) == "[" + Join(Each(items, StableStringify), ",") + "]"
  {
    hide Join;
    TextsAre(items);
  }

  lemma LeafText(v: Value)
    requires !v.Arr? && !v.Obj?
    ensures StableStringify(v) == Print(v)
  {
  }

  /** An object's text: each field once, its key quoted, the keys in ascending order. */
  lemma ObjectText(fields: seq<Field>) returns (entries: seq<Pair<string>>)
    requires DistinctKeys(fields)
    ensures StableStringify(Obj(fields))
         == "{" + Join(Each(entries, (e: Pair<string>) => Quote(e.key) + ":" + e.value), ",") + "}"
    ensures forall i, j :: 0 <= i < j < |entries| ==> Before(entries[i].key, entries[j].key)
    ensures forall e :: e in entries <==>
              exists i :: 0 <= i < |fields| && e == Pair(fields[i].key, StableStringify(fields[i].value))
  {
    hide Join, Before, Sort, Quote, Entries;
    ObjectUnfolds(fields);
    entries := Sort(Entries(fields));
    EntriesAre(fields);
    EntryTextsAre(entries);
    SortAscends(Entries(fields));
    forall e ensures e in entries <==>
              exists i :: 0 <= i < |fields| && e == Pair(fields[i].key, StableStringify(fields[i].value)) {
      SortHas(Entries(fields), e);
      if i :| 0 <= i < |fields| && e == Pair(fields[i].key, StableStringify(fields[i].value)) {
        assert Entries(fields)[i] == e;
      }
    }
  }

  lemma ObjectUnfolds(fields: seq<Field>)
    ensures StableStringify(Obj(fields)) == "{" + Join(EntryTexts(Sort(Entries(fields))), ",") + "}"
  {
  }

  /** The key: the URL alone without parameters, and else their text after a question mark. */
  lemma CacheKeyIs(url: string, params: Option<seq<Field>>)
    ensures params == None || params == Some([]) ==> CacheKey(url, params) == url
    ensures params.Some? && params.value != [] ==> CacheKey(url, params) == url + "?" + StableStringify(Obj(params.value))
  {
    hide StableStringify;
  }
}
