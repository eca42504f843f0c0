/** The case-insensitive header multimap: its One/Many representation and the multimap it stands for. */
module HeaderMaps {
  import opened ByteStrings

  datatype HeaderNameError = NameEmpty | NameIllegalCharacter

  /** `validate_header_name` and `validate_header_value_bytes`. */
  predicate ValidName(n: Bytes) {
    n != [] && forall i :: 0 <= i < |n| ==> n[i] < 0x80 && n[i] != CR && n[i] != LF && n[i] != COLON
  }

  predicate ValidValue(v: Bytes) {
    LineSafe(v)
  }

  function Lower(b: byte): byte {
    if 65 <= b <= 90 then b + 32 else b
  }

  /** The key `UniCase` compares names by. */
  function Key(name: Bytes): Bytes {
    seq(|name|, i requires 0 <= i < |name| => Lower(name[i]))
  }

  /** The lexicographic order of keys. */
  predicate Less(a: Bytes, b: Bytes) {
    b != [] && (a == [] || a[0] < b[0] || (a[0] == b[0] && Less(a[1..], b[1..])))
  }

  lemma {:induction false} LessIsStrictTotal(a: Bytes, b: Bytes)
    ensures !Less(a, a)
    ensures Less(a, b) || a == b || Less(b, a)
    ensures !(Less(a, b) && Less(b, a))
  {
    if a != [] {
      LessIsStrictTotal(a[1..], if b == [] then [] else b[1..]);
      if b != [] && a[0] == b[0] && a[1..] == b[1..] {
        assert a == [a[0]] + a[1..] && b == [b[0]] + b[1..];
      }
    }
  }

  lemma {:induction false} LessTransitive(a: Bytes, b: Bytes, c: Bytes)
    requires Less(a, b) && Less(b, c)
    ensures Less(a, c)
  {
    if a != [] && a[0] == b[0] == c[0] {
      LessTransitive(a[1..], b[1..], c[1..]);
    }
  }

  // ----- The representation -----

  datatype OneOrMany = One(value: Bytes) | Many(values: seq<Bytes>) {
    function Len(): nat {
      if One? then 1 else |values|
    }

    function Push(item: Bytes): OneOrMany {
      if One? then Many([value, item]) else Many(values + [item])
    }

    function Items(): seq<Bytes> {
      if One? then [value] else values
    }

    predicate Canonical() {
      Many? ==> |values| >= 2
    }
  }

  datatype Entry = Entry(name: Bytes, values: OneOrMany)

  /** The contents of a `HeaderMap`: the tree's entries in key order, and the cached number of values. */
  datatype Headers = Headers(entries: seq<Entry>, len: nat)

  const EMPTY: Headers := Headers([], 0)

  predicate Sorted(entries: seq<Entry>) {
    forall i, j :: 0 <= i < j < |entries| ==> Less(Key(entries[i].name), Key(entries[j].name))
  }

  function Total(entries: seq<Entry>): nat {
    if entries == [] then 0 else Total(entries[..|entries| - 1]) + entries[|entries| - 1].values.Len()
  }

  /** What append, insert and remove keep: unique sorted keys, `Many` of at least two, `len` the number of values. */
  predicate Valid(h: Headers) {
    && Sorted(h.entries)
    && (forall i :: 0 <= i < |h.entries| ==> h.entries[i].values.Canonical())
    && h.len == Total(h.entries)
  }

  /** Where a name is, or belongs, in key order. */
  function Position(entries: seq<Entry>, name: Bytes, from: nat := 0): (p: nat)
    requires from <= |entries|
    ensures from <= p <= |entries|
    ensures forall i :: from <= i < p ==> Less(Key(entries[i].name), Key(name))
    ensures p < |entries| ==> !Less(Key(entries[p].name), Key(name))
    decreases |entries| - from
  {
    if from < |entries| && Less(Key(entries[from].name), Key(name)) then Position(entries, name, from + 1) else from
  }

  predicate Occupied(entries: seq<Entry>, name: Bytes) {
    var p := Position(entries, name);
    p < |entries| && Key(entries[p].name) == Key(name)
  }

  /** `get_all`: the multimap a `HeaderMap` stands for. */
  function GetAll(h: Headers, name: Bytes): seq<Bytes> {
    if Occupied(h.entries, name) then h.entries[Position(h.entries, name)].values.Items() else []
  }

  function Append(h: Headers, name: Bytes, value: Bytes): Headers {
    var p := Position(h.entries, name);
    var e := h.entries;
    if Occupied(e, name) then Headers(e[p := Entry(e[p].name, e[p].values.Push(value))], h.len + 1)
    else Headers(e[..p] + [Entry(name, One(value))] + e[p..], h.len + 1)
  }

  function Insert(h: Headers, name: Bytes, value: Bytes): Headers
    requires Valid(h)
  {
    var p := Position(h.entries, name);
    var e := h.entries;
    if Occupied(e, name) then
      TotalSplit(e, p);
      Headers(e[p := Entry(e[p].name, One(value))], h.len - e[p].values.Len() + 1)
    else Headers(e[..p] + [Entry(name, One(value))] + e[p..], h.len + 1)
  }

  function Remove(h: Headers, name: Bytes): Headers
    requires Valid(h)
  {
    var p := Position(h.entries, name);
    var e := h.entries;
    if Occupied(e, name) then
      TotalSplit(e, p);
      Headers(e[..p] + e[p + 1..], h.len - e[p].values.Len())
    else h
  }

  // ----- Keeping the representation -----

  lemma {:induction false} TotalConcat(a: seq<Entry>, b: seq<Entry>)
    ensures Total(a + b) == Total(a) + Total(b)
  {
    if b == [] {
      assert a + b == a;
    } else {
      assert (a + b)[..|a + b| - 1] == a + b[..|b| - 1];
      TotalConcat(a, b[..|b| - 1]);
    }
  }

  lemma TotalSplit(e: seq<Entry>, p: nat)
    requires p < |e|
    ensures Total(e) == Total(e[..p]) + e[p].values.Len() + Total(e[p + 1..])
  {
    assert e == e[..p + 1] + e[p + 1..];
    TotalConcat(e[..p + 1], e[p + 1..]);
    assert e[..p + 1][..p] == e[..p];
  }

  lemma TotalReplace(e: seq<Entry>, p: nat, x: Entry)
    requires p < |e|
    ensures Total(e[p := x]) + e[p].values.Len() == Total(e) + x.values.Len()
  {
    TotalSplit(e, p);
    TotalSplit(e[p := x], p);
    assert e[p := x][..p] == e[..p] && e[p := x][p + 1..] == e[p + 1..];
  }

  lemma TotalPlace(e: seq<Entry>, p: nat, x: Entry)
    requires p <= |e|
    ensures Total(e[..p] + [x] + e[p..]) == Total(e) + x.values.Len()
  {
    var r := e[..p] + [x] + e[p..];
    TotalSplit(r, p);
    assert r[..p] == e[..p] && r[p + 1..] == e[p..];
    assert e == e[..p] + e[p..];
    TotalConcat(e[..p], e[p..]);
  }

  /** Past the position of a name every key is larger, except an equal one at the position itself. */
  lemma PositionSplits(entries: seq<Entry>, name: Bytes, i: nat)
    requires Sorted(entries) && i < |entries|
    ensures var p := Position(entries, name);
      && (i < p ==> Less(Key(entries[i].name), Key(name)))
      && (i >= p && !(i == p && Occupied(entries, name)) ==> Less(Key(name), Key(entries[i].name)))
      && (Key(entries[i].name) == Key(name) <==> i == p && Occupied(entries, name))
  {
    var p := Position(entries, name);
    LessIsStrictTotal(Key(entries[i].name), Key(name));
    if i >= p {
      LessIsStrictTotal(Key(entries[p].name), Key(name));
      if i > p && Less(Key(name), Key(entries[p].name)) {
        LessTransitive(Key(name), Key(entries[p].name), Key(entries[i].name));
      }
    }
  }

  lemma PlaceSorted(e: seq<Entry>, x: Entry)
    requires Sorted(e) && !Occupied(e, x.name)
    ensures var p := Position(e, x.name); Sorted(e[..p] + [x] + e[p..])
  {
    var p := Position(e, x.name);
    forall i | 0 <= i < |e|
      ensures if i < p then Less(Key(e[i].name), Key(x.name)) else Less(Key(x.name), Key(e[i].name))
    {
      PositionSplits(e, x.name, i);
    }
  }

  /** The position of a name is where its key is. */
  lemma PositionIs(e: seq<Entry>, name: Bytes, p: nat)
    requires Sorted(e) && p < |e| && Key(e[p].name) == Key(name)
    ensures Position(e, name) == p && Occupied(e, name)
  {
    PositionSplits(e, name, p);
  }

  lemma NotOccupiedIs(e: seq<Entry>, name: Bytes)
    requires forall i :: 0 <= i < |e| ==> Key(e[i].name) != Key(name)
    ensures !Occupied(e, name)
  {
  }

  /** GetAll through any view of where the key is. */
  lemma GetAllAt(h: Headers, name: Bytes, p: nat)
    requires Sorted(h.entries) && p < |h.entries| && Key(h.entries[p].name) == Key(name)
    ensures GetAll(h, name) == h.entries[p].values.Items()
  {
    PositionIs(h.entries, name, p);
  }

  /** Two maps that agree on every entry but those keyed by `name` answer alike for every other name. */
  lemma GetAllElsewhere(h: Headers, h': Headers, name: Bytes, other: Bytes)
    requires Sorted(h.entries) && Sorted(h'.entries) && Key(other) != Key(name)
    requires forall i :: 0 <= i < |h.entries| && Key(h.entries[i].name) != Key(name) ==> h.entries[i] in h'.entries
    requires forall i :: 0 <= i < |h'.entries| && Key(h'.entries[i].name) != Key(name) ==> h'.entries[i] in h.entries
    ensures GetAll(h, other) == GetAll(h', other)
  {
    if Occupied(h.entries, other) {
      var p := Position(h.entries, other);
      var q :| 0 <= q < |h'.entries| && h'.entries[q] == h.entries[p];
      GetAllAt(h', other, q);
    } else if Occupied(h'.entries, other) {
      var q := Position(h'.entries, other);
      var p :| 0 <= p < |h.entries| && h.entries[p] == h'.entries[q];
      PositionIs(h.entries, other, p);
    }
  }

  lemma AppendValid(h: Headers, name: Bytes, value: Bytes)
    requires Valid(h)
    ensures Valid(Append(h, name, value))
  {
    var e, p := h.entries, Position(h.entries, name);
    if Occupied(e, name) {
      var x := Entry(e[p].name, e[p].values.Push(value));
      TotalReplace(e, p, x);
    } else {
      PlaceSorted(e, Entry(name, One(value)));
      TotalPlace(e, p, Entry(name, One(value)));
    }
  }

  /** Append adds one value at the end of one name's values, and changes no other name. */
  lemma AppendSpec(h: Headers, name: Bytes, value: Bytes, other: Bytes)
    requires Valid(h)
    ensures var h' := Append(h, name, value);
      && Valid(h') && h'.len == h.len + 1
      && GetAll(h', name) == GetAll(h, name) + [value]
      && (Key(other) != Key(name) ==> GetAll(h', other) == GetAll(h, other))
  {
    AppendValid(h, name, value);
    var h' := Append(h, name, value);
    GetAllAt(h', name, Position(h.entries, name));
    if Key(other) != Key(name) {
      Elsewhere(h.entries, h'.entries, name, Position(h.entries, name));
      GetAllElsewhere(h, h', name, other);
    }
  }

  lemma InsertValid(h: Headers, name: Bytes, value: Bytes)
    requires Valid(h)
    ensures Valid(Insert(h, name, value))
  {
    var e, p := h.entries, Position(h.entries, name);
    if Occupied(e, name) {
      TotalReplace(e, p, Entry(e[p].name, One(value)));
    } else {
      PlaceSorted(e, Entry(name, One(value)));
      TotalPlace(e, p, Entry(name, One(value)));
    }
  }

  /** Insert leaves exactly one value under the name. */
  lemma InsertSpec(h: Headers, name: Bytes, value: Bytes, other: Bytes)
    requires Valid(h)
    ensures var h' := Insert(h, name, value);
      && Valid(h') && h'.len == h.len - |GetAll(h, name)| + 1
      && GetAll(h', name) == [value]
      && (Key(other) != Key(name) ==> GetAll(h', other) == GetAll(h, other))
  {
    InsertValid(h, name, value);
    var h' := Insert(h, name, value);
    GetAllAt(h', name, Position(h.entries, name));
    if Key(other) != Key(name) {
      Elsewhere(h.entries, h'.entries, name, Position(h.entries, name));
      GetAllElsewhere(h, h', name, other);
    }
  }

  lemma WithoutSorted(e: seq<Entry>, p: nat)
    requires Sorted(e) && p < |e|
    ensures Sorted(e[..p] + e[p + 1..])
  {
    var e' := e[..p] + e[p + 1..];
    assert forall i :: 0 <= i < |e'| ==> e'[i] == e[if i < p then i else i + 1];
  }

  lemma RemoveValid(h: Headers, name: Bytes)
    requires Valid(h)
    ensures Valid(Remove(h, name))
  {
    var e, p := h.entries, Position(h.entries, name);
    if Occupied(e, name) {
      WithoutSorted(e, p);
      TotalSplit(e, p);
      TotalConcat(e[..p], e[p + 1..]);
    }
  }

  lemma RemoveVacates(h: Headers, name: Bytes)
    requires Valid(h)
    ensures GetAll(Remove(h, name), name) == []
  {
    var e, p, e' := h.entries, Position(h.entries, name), Remove(h, name).entries;
    forall i | 0 <= i < |e'|
      ensures Key(e'[i].name) != Key(name)
    {
      PositionSplits(e, name, if Occupied(e, name) && i >= p then i + 1 else i);
    }
    NotOccupiedIs(e', name);
  }

  lemma RemoveElsewhere(h: Headers, name: Bytes)
    requires Valid(h)
    ensures var e, e' := h.entries, Remove(h, name).entries;
      && (forall i :: 0 <= i < |e| && Key(e[i].name) != Key(name) ==> e[i] in e')
      && (forall i :: 0 <= i < |e'| ==> e'[i] in e)
  {
    var e, e', p := h.entries, Remove(h, name).entries, Position(h.entries, name);
    if Occupied(e, name) {
      forall i | 0 <= i < |e| && i != p
        ensures e[i] in e'
      {
        assert e'[if i < p then i else i - 1] == e[i];
      }
    }
  }

  /** Remove leaves no value under the name. */
  lemma RemoveSpec(h: Headers, name: Bytes, other: Bytes)
    requires Valid(h)
    ensures var h' := Remove(h, name);
      && Valid(h') && h'.len == h.len - |GetAll(h, name)|
      && GetAll(h', name) == []
      && (Key(other) != Key(name) ==> GetAll(h', other) == GetAll(h, other))
  {
    var h' := Remove(h, name);
    RemoveValid(h, name);
    RemoveVacates(h, name);
    if Key(other) != Key(name) {
      RemoveElsewhere(h, name);
      GetAllElsewhere(h, h', name, other);
    }
  }

  /** Replacing or placing an entry at the position of `name` keeps all entries under other keys. */
  lemma Elsewhere(e: seq<Entry>, e': seq<Entry>, name: Bytes, p: nat)
    requires p == Position(e, name) && p < |e'| && Key(e'[p].name) == Key(name)
    requires e' == if Occupied(e, name) then e[p := e'[p]] else e[..p] + [e'[p]] + e[p..]
    ensures forall i :: 0 <= i < |e| && Key(e[i].name) != Key(name) ==> e[i] in e'
    ensures forall i :: 0 <= i < |e'| && Key(e'[i].name) != Key(name) ==> e'[i] in e
  {
    forall i | 0 <= i < |e| && Key(e[i].name) != Key(name)
      ensures e[i] in e'
    {
      assert e[i] == if Occupied(e, name) || i < p then e'[i] else e'[i + 1];
    }
    forall i | 0 <= i < |e'| && Key(e'[i].name) != Key(name)
      ensures e'[i] in e
    {
      assert e'[i] == if Occupied(e, name) || i < p then e[i] else e[i - 1];
    }
  }

  // ----- Which names are the same -----

  /** The same letter in either case, or the same byte. */
  predicate SameLetter(a: byte, b: byte) {
    a == b || (65 <= a <= 90 && b == a + 32) || (65 <= b <= 90 && a == b + 32)
  }

  predicate SameButCase(a: Bytes, b: Bytes) {
    |a| == |b| && forall i :: 0 <= i < |a| ==> SameLetter(a[i], b[i])
  }

  lemma KeysAgree(a: Bytes, b: Bytes)
    ensures Key(a) == Key(b) <==> SameButCase(a, b)
  {
    if Key(a) == Key(b) {
      assert |Key(a)| == |Key(b)|;
      assert forall i :: 0 <= i < |a| ==> Key(a)[i] == Lower(a[i]) && Key(b)[i] == Lower(b[i]);
    }
  }

  /** Two names have the same values in every map exactly when they are equal up to the case of ASCII letters. */
  lemma NamesIgnoreCase(a: Bytes, b: Bytes)
    ensures SameButCase(a, b) <==> forall h :: Valid(h) ==> GetAll(h, a) == GetAll(h, b)
  {
    KeysAgree(a, b);
    if Key(a) == Key(b) {
      forall h | Valid(h)
        ensures GetAll(h, a) == GetAll(h, b)
      {
        SameKeySameValues(h, a, b);
      }
    } else {
      AppendSpec(EMPTY, a, [], b);
      var h := Append(EMPTY, a, []);
      assert GetAll(h, a) == [[]] && GetAll(h, b) == [];
    }
  }

  lemma SameKeySameValues(h: Headers, a: Bytes, b: Bytes)
    requires Valid(h) && Key(a) == Key(b)
    ensures GetAll(h, a) == GetAll(h, b)
  {
    if Occupied(h.entries, a) {
      GetAllAt(h, b, Position(h.entries, a));
    } else if Occupied(h.entries, b) {
      PositionIs(h.entries, a, Position(h.entries, b));
    }
  }

  // ----- Equality -----

  /** The derived `PartialEq`: entry by entry, names compared without case, representations compared as they are. */
  predicate SameMap(h: Headers, h': Headers) {
    && |h.entries| == |h'.entries|
    && h.len == h'.len
    && forall i :: 0 <= i < |h.entries| ==>
      Key(h.entries[i].name) == Key(h'.entries[i].name) && h.entries[i].values == h'.entries[i].values
  }

  ghost predicate SameMultimap(h: Headers, h': Headers) {
    forall name :: GetAll(h, name) == GetAll(h', name)
  }

  /** Derived equality is multimap equality: no two representations of the same multimap differ. */
  lemma EqualityIsMultimapEquality(h: Headers, h': Headers)
    requires Valid(h) && Valid(h')
    ensures SameMap(h, h') <==> SameMultimap(h, h')
  {
    if SameMap(h, h') {
      forall name
        ensures GetAll(h, name) == GetAll(h', name)
      {
        if Occupied(h.entries, name) {
          GetAllAt(h', name, Position(h.entries, name));
        } else if Occupied(h'.entries, name) {
          PositionIs(h.entries, name, Position(h'.entries, name));
        }
      }
    }
    if SameMultimap(h, h') {
      SameMultimapSameEntries(h, h', 0);
    }
  }

  lemma ItemsNonEmpty(h: Headers, i: nat)
    requires Valid(h) && i < |h.entries|
    ensures GetAll(h, h.entries[i].name) == h.entries[i].values.Items() != []
  {
    GetAllAt(h, h.entries[i].name, i);
  }

  /** The entries agree one by one: at the first disagreement the smaller key would be missing on the other side. */
  lemma {:induction false} SameMultimapSameEntries(h: Headers, h': Headers, k: nat)
    requires Valid(h) && Valid(h') && SameMultimap(h, h')
    requires k <= |h.entries| && k <= |h'.entries|
    requires Total(h.entries[..k]) == Total(h'.entries[..k])
    requires forall i :: 0 <= i < k ==>
      Key(h.entries[i].name) == Key(h'.entries[i].name) && h.entries[i].values == h'.entries[i].values
    ensures SameMap(h, h')
    decreases |h.entries| - k
  {
    hide Valid, GetAll, Less, Key, Total;
    var e, e' := h.entries, h'.entries;
    if k < |e| && (k == |e'| || Less(Key(e[k].name), Key(e'[k].name))) {
      MissingKey(h, h', k);
    } else if k < |e'| && (k == |e| || Less(Key(e'[k].name), Key(e[k].name))) {
      MissingKey(h', h, k);
    } else if k < |e| {
      SameValuesAt(h, h', k);
      SameTotals(e, e', k);
      SameMultimapSameEntries(h, h', k + 1);
    } else {
      assert e[..k] == e && e'[..k] == e';
      SameLength(h, h');
    }
  }

  lemma SameTotals(e: seq<Entry>, e': seq<Entry>, k: nat)
    requires k < |e| && k < |e'| && Total(e[..k]) == Total(e'[..k]) && e[k].values == e'[k].values
    ensures Total(e[..k + 1]) == Total(e'[..k + 1])
  {
    assert e[..k + 1][..k] == e[..k] && e'[..k + 1][..k] == e'[..k];
  }

  lemma SameLength(h: Headers, h': Headers)
    requires Valid(h) && Valid(h') && Total(h.entries) == Total(h'.entries)
    ensures h.len == h'.len
  {
  }

  lemma SameValuesAt(h: Headers, h': Headers, k: nat)
    requires Valid(h) && Valid(h') && SameMultimap(h, h')
    requires k < |h.entries| && k < |h'.entries|
    requires !Less(Key(h.entries[k].name), Key(h'.entries[k].name)) && !Less(Key(h'.entries[k].name), Key(h.entries[k].name))
    ensures Key(h.entries[k].name) == Key(h'.entries[k].name) && h.entries[k].values == h'.entries[k].values
  {
    var name := h.entries[k].name;
    LessIsStrictTotal(Key(name), Key(h'.entries[k].name));
    GetAllAt(h, name, k);
    GetAllAt(h', name, k);
    SameItemsSameValues(h.entries[k].values, h'.entries[k].values);
  }

  lemma SameItemsSameValues(a: OneOrMany, b: OneOrMany)
    requires a.Canonical() && b.Canonical() && a.Items() == b.Items()
    ensures a == b
  {
    if a.One? && b.One? {
      assert a.Items()[0] == b.Items()[0];
    }
  }

  lemma MissingKey(h: Headers, h': Headers, k: nat)
    requires Valid(h) && Valid(h') && k < |h.entries| && k <= |h'.entries|
    requires forall i :: 0 <= i < k ==> Key(h.entries[i].name) == Key(h'.entries[i].name)
    requires k == |h'.entries| || Less(Key(h.entries[k].name), Key(h'.entries[k].name))
    ensures GetAll(h, h.entries[k].name) != GetAll(h', h.entries[k].name)
  {
    var e, e', name := h.entries, h'.entries, h.entries[k].name;
    ItemsNonEmpty(h, k);
    forall i | 0 <= i < |e'|
      ensures Key(e'[i].name) != Key(name)
    {
      LessIsStrictTotal(Key(name), Key(name));
      if i > k {
        LessTransitive(Key(name), Key(e'[k].name), Key(e'[i].name));
      } else if i < k {
        assert Less(Key(e[i].name), Key(name));
      }
    }
    NotOccupiedIs(e', name);
  }

  // ----- Iteration and collection -----

  /** One name with each of its values (`values.flat_map`). */
  function EntryPairs(name: Bytes, values: seq<Bytes>): (pairs: seq<(Bytes, Bytes)>)
    ensures |pairs| == |values|
    ensures forall i :: 0 <= i < |values| ==> pairs[i] == (name, values[i])
  {
    seq(|values|, i requires 0 <= i < |values| => (name, values[i]))
  }

  /** The name/value pairs in iteration order. */
  function Pairs(entries: seq<Entry>): seq<(Bytes, Bytes)> {
    if entries == [] then []
    else
      var last := entries[|entries| - 1];
      Pairs(entries[..|entries| - 1]) + EntryPairs(last.name, last.values.Items())
  }

  /** `FromIterator`/`Extend`: append every pair in turn. */
  function Collect(h: Headers, pairs: seq<(Bytes, Bytes)>): Headers
    decreases |pairs|
  {
    if pairs == [] then h else Collect(Append(h, pairs[0].0, pairs[0].1), pairs[1..])
  }

  lemma {:induction false} CollectConcat(h: Headers, a: seq<(Bytes, Bytes)>, b: seq<(Bytes, Bytes)>)
    ensures Collect(h, a + b) == Collect(Collect(h, a), b)
    decreases |a|
  {
    if a == [] {
      assert a + b == b;
    } else {
      assert (a + b)[1..] == a[1..] + b;
      CollectConcat(Append(h, a[0].0, a[0].1), a[1..], b);
    }
  }

  /** Collecting the pairs of a map rebuilds that very map: names, order of values and representation. */
  lemma CollectPairs(h: Headers)
    requires Valid(h)
    ensures Collect(EMPTY, Pairs(h.entries)) == h
  {
    CollectPairsOf(h.entries);
  }

  lemma {:induction false} CollectPairsOf(e: seq<Entry>)
    requires Sorted(e) && forall i :: 0 <= i < |e| ==> e[i].values.Canonical()
    ensures Collect(EMPTY, Pairs(e)) == Headers(e, Total(e))
  {
    if e != [] {
      var init, last := e[..|e| - 1], e[|e| - 1];
      CollectPairsOf(init);
      CollectConcat(EMPTY, Pairs(init), EntryPairs(last.name, last.values.Items()));
      CollectEntry(init, last.name, last.values, Total(init));
      assert init + [last] == e;
    }
  }

  function PushAll(v: OneOrMany, rest: seq<Bytes>): OneOrMany
    decreases |rest|
  {
    if rest == [] then v else PushAll(v.Push(rest[0]), rest[1..])
  }

  lemma {:induction false} PushAllMany(values: seq<Bytes>, rest: seq<Bytes>)
    ensures PushAll(Many(values), rest) == Many(values + rest)
    decreases |rest|
  {
    if rest == [] {
      assert values + rest == values;
    } else {
      PushAllMany(values + [rest[0]], rest[1..]);
      assert values + [rest[0]] + rest[1..] == values + rest;
    }
  }

  /** Pushing a non-empty list of values one by one builds the canonical representation. */
  lemma PushAllCanonical(v: OneOrMany)
    requires v.Canonical()
    ensures PushAll(One(v.Items()[0]), v.Items()[1..]) == v
  {
    if v.Many? {
      var items := v.values;
      PushAllMany([items[0], items[1]], items[2..]);
      assert items[1..][1..] == items[2..];
      assert [items[0], items[1]] + items[2..] == items;
    }
  }

  lemma AppendNew(init: seq<Entry>, name: Bytes, value: Bytes, n: nat)
    requires forall i :: 0 <= i < |init| ==> Less(Key(init[i].name), Key(name))
    ensures Append(Headers(init, n), name, value) == Headers(init + [Entry(name, One(value))], n + 1)
  {
    PositionAtEnd(init, name, init);
    assert init[..|init|] == init && init[|init|..] == [];
  }

  lemma AppendLast(init: seq<Entry>, name: Bytes, values: OneOrMany, value: Bytes, n: nat)
    requires forall i :: 0 <= i < |init| ==> Less(Key(init[i].name), Key(name))
    ensures Append(Headers(init + [Entry(name, values)], n), name, value)
         == Headers(init + [Entry(name, values.Push(value))], n + 1)
  {
    PositionAtEnd(init, name, init + [Entry(name, values)]);
  }

  lemma PositionAtEnd(init: seq<Entry>, name: Bytes, now: seq<Entry>)
    requires forall i :: 0 <= i < |init| ==> Less(Key(init[i].name), Key(name))
    requires now == init || (|now| == |init| + 1 && now[..|init|] == init && now[|init|].name == name)
    ensures Position(now, name) == |init|
  {
    LessIsStrictTotal(Key(name), Key(name));
    assert forall i :: 0 <= i < |init| ==> now[i] == now[..|init|][i];
    var p := Position(now, name);
  }

  /** Further values of the largest key are pushed onto its entry. */
  lemma {:induction false} CollectLast(init: seq<Entry>, name: Bytes, v: OneOrMany, rest: seq<Bytes>, n: nat)
    requires forall i :: 0 <= i < |init| ==> Less(Key(init[i].name), Key(name))
    ensures Collect(Headers(init + [Entry(name, v)], n), EntryPairs(name, rest))
         == Headers(init + [Entry(name, PushAll(v, rest))], n + |rest|)
    decreases |rest|
  {
    if rest != [] {
      AppendLast(init, name, v, rest[0], n);
      assert EntryPairs(name, rest)[1..] == EntryPairs(name, rest[1..]);
      CollectLast(init, name, v.Push(rest[0]), rest[1..], n + 1);
    }
  }

  /** The first value of the largest key opens an entry at the end. */
  lemma CollectEntry(init: seq<Entry>, name: Bytes, v: OneOrMany, n: nat)
    requires v.Canonical()
    requires forall i :: 0 <= i < |init| ==> Less(Key(init[i].name), Key(name))
    ensures Collect(Headers(init, n), EntryPairs(name, v.Items())) == Headers(init + [Entry(name, v)], n + v.Len())
  {
    var items := v.Items();
    AppendNew(init, name, items[0], n);
    assert EntryPairs(name, items)[1..] == EntryPairs(name, items[1..]);
    CollectLast(init, name, One(items[0]), items[1..], n + 1);
    PushAllCanonical(v);
  }

  /** The mutable map: the methods rewrite the entries and the cached length in place. */
  class HeaderMap {
    var entries: seq<Entry>
    var len: nat

    ghost predicate Invariant()
      reads this
    {
      Valid(View())
    }

    function View(): Headers
      reads this
    {
      Headers(entries, len)
    }

    constructor ()
      ensures Invariant() && View() == EMPTY
    {
      entries, len := [], 0;
    }

    method InsertHeader(name: Bytes, value: Bytes)
      requires Invariant()
      modifies this
      ensures Invariant() && View() == Insert(old(View()), name, value)
    {
      InsertSpec(View(), name, value, name);
      var p := Position(entries, name);
      if Occupied(entries, name) {
        var prev := entries[p].values;
        TotalSplit(entries, p);
        entries := entries[p := Entry(entries[p].name, One(value))];
        len := len - prev.Len();
      } else {
        entries := entries[..p] + [Entry(name, One(value))] + entries[p..];
      }
      len := len + 1;
    }

    method AppendHeader(name: Bytes, value: Bytes)
      requires Invariant()
      modifies this
      ensures Invariant() && View() == Append(old(View()), name, value)
    {
      AppendSpec(View(), name, value, name);
      var p := Position(entries, name);
      if Occupied(entries, name) {
        entries := entries[p := Entry(entries[p].name, entries[p].values.Push(value))];
      } else {
        entries := entries[..p] + [Entry(name, One(value))] + entries[p..];
      }
      len := len + 1;
    }

    method RemoveHeader(name: Bytes)
      requires Invariant()
      modifies this
      ensures Invariant() && View() == Remove(old(View()), name)
    {
      RemoveSpec(View(), name, name);
      var p := Position(entries, name);
      if Occupied(entries, name) {
        var prev := entries[p].values;
        TotalSplit(entries, p);
        entries := entries[..p] + entries[p + 1..];
        len := len - prev.Len();
      }
    }
  }
}
