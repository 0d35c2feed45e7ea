/** AnyType: tagged values, their equality, and their form in a ByteBuffer. A value is a tree; all
    copies in AnyType are deep. */
module AnyType {

  import opened Seqs
  import opened Bytes

  const WORD: nat := 0x1_0000_0000

  /** Num holds the bits of an integer, a float or a double of the tag's width. */
  datatype Any =
    | Null
    | Num(tag: nat, bits: nat)
    | Str(chars: seq<byte>)
    | Vec(items: seq<Any>)
    | Map1A(entries: seq<Entry>)

  datatype Entry = Entry(key: byte, value: Any)

  const INT8: nat := 0x01
  const UINT8: nat := 0x02
  const INT16: nat := 0x03
  const UINT16: nat := 0x04
  const INT32: nat := 0x05
  const UINT32: nat := 0x06
  const INT64: nat := 0x07
  const UINT64: nat := 0x08
  const FLOAT: nat := 0x21
  const DOUBLE: nat := 0x22
  const PVOID: nat := 0x42
  const STRING: nat := 0x61
  const VECTOR: nat := 0x62
  const MAP1A: nat := 0x63

  /** The bytes of a number; 0 for the tags that are not numbers. */
  function Width(tag: nat): nat {
    if tag == INT8 || tag == UINT8 then 1
    else if tag == INT16 || tag == UINT16 then 2
    else if tag == INT32 || tag == UINT32 || tag == FLOAT then 4
    else if tag == INT64 || tag == UINT64 || tag == DOUBLE then 8
    else 0
  }

  function Tag(a: Any): nat {
    match a
    case Null => PVOID
    case Num(tag, bits) => tag
    case Str(chars) => STRING
    case Vec(items) => VECTOR
    case Map1A(entries) => MAP1A
  }

  // ---------------------------------------------------------------- values that exist

  /** std::map keeps its keys distinct and in order. */
  ghost predicate Sorted(entries: seq<Entry>) {
    forall i, j :: 0 <= i < j < |entries| ==> entries[i].key < entries[j].key
  }

  ghost predicate Typed(a: Any)
    decreases a
  {
    match a
    case Null => true
    case Num(tag, bits) => Width(tag) > 0 && bits < Span(Width(tag))
    case Str(chars) => true
    case Vec(items) => |items| < WORD && forall x :: x in items ==> Typed(x)
    case Map1A(entries) => Sorted(entries) && forall e :: e in entries ==> Typed(e.value)
  }

  /** Strings are written up to a zero byte: the values that can be sent have none in them. */
  ghost predicate Sendable(a: Any)
    decreases a
  {
    match a
    case Null => true
    case Num(tag, bits) => Width(tag) > 0 && bits < Span(Width(tag))
    case Str(chars) => 0 !in chars
    case Vec(items) => |items| < WORD && forall x :: x in items ==> Sendable(x)
    case Map1A(entries) => Sorted(entries) && forall e :: e in entries ==> Sendable(e.value)
  }

  lemma SortedShort(entries: seq<Entry>)
    requires Sorted(entries)
    ensures |entries| <= 256
  {
    var i := 0;
    while i < |entries|
      invariant 0 <= i <= |entries|
      invariant i > 0 ==> entries[i - 1].key as int >= i - 1
    {
      i := i + 1;
    }
  }

  // ---------------------------------------------------------------- equality

  const MANTISSA: nat := 0x10_0000_0000_0000
  const SIGN: nat := 0x8000_0000_0000_0000

  /** The exponent is all ones and the mantissa is not zero. */
  predicate IsNan(bits: nat) {
    bits / MANTISSA % 2048 == 2047 && bits % MANTISSA != 0
  }

  /** The comparison of two doubles, given by their bits: a NaN equals nothing, and the zeros are equal. */
  predicate SameDouble(x: nat, y: nat) {
    !IsNan(x) && !IsNan(y) && (x == y || (x % SIGN == 0 && y % SIGN == 0))
  }

  /** operator== compares the tags, then the payload at the width of the tag; floats by their bits. */
  predicate Same(a: Any, b: Any)
    decreases a
  {
    if Tag(a) != Tag(b) then false
    else
      match a
      case Str(chars) => b.Str? && chars == b.chars
      case Vec(items) => b.Vec? && SameItems(items, b.items)
      case Map1A(entries) => b.Map1A? && SameEntries(entries, b.entries)
      case Num(tag, bits) =>
        b.Num? && if tag == DOUBLE then SameDouble(bits % Span(8), b.bits % Span(8))
                  else bits % Span(Width(tag)) == b.bits % Span(Width(tag))
      case Null => true
  }

  predicate SameItems(u: seq<Any>, v: seq<Any>)
    decreases u
  {
    |u| == |v| && forall i :: 0 <= i < |u| ==> Same(u[i], v[i])
  }

  predicate SameEntries(u: seq<Entry>, v: seq<Entry>)
    decreases u
  {
    |u| == |v| && forall i :: 0 <= i < |u| ==> SameEntry(u[i], v[i])
  }

  predicate SameEntry(d: Entry, e: Entry)
    decreases d
  {
    match d
    case Entry(key, value) => key == e.key && Same(value, e.value)
  }

  /** The value with every negative zero made positive. */
  function Canonical(a: Any): (r: Any)
    ensures Tag(r) == Tag(a)
    decreases a
  {
    match a
    case Num(tag, bits) => if tag == DOUBLE && bits == SIGN then Num(DOUBLE, 0) else a
    case Vec(items) => Vec(seq(|items|, i requires 0 <= i < |items| => Canonical(items[i])))
    case Map1A(entries) => Map1A(seq(|entries|, i requires 0 <= i < |entries| => CanonicalEntry(entries[i])))
    case _ => a
  }

  function CanonicalEntry(e: Entry): Entry
    decreases e
  {
    match e
    case Entry(key, value) => Entry(key, Canonical(value))
  }

  predicate NanFree(a: Any)
    decreases a
  {
    match a
    case Num(tag, bits) => tag == DOUBLE ==> !IsNan(bits)
    case Vec(items) => forall i :: 0 <= i < |items| ==> NanFree(items[i])
    case Map1A(entries) => forall i :: 0 <= i < |entries| ==> NanFreeEntry(entries[i])
    case _ => true
  }

  predicate NanFreeEntry(e: Entry)
    decreases e
  {
    match e
    case Entry(key, value) => NanFree(value)
  }

  /** Main result: the comparison is equality of the values, but for the sign of a zero, and for
      doubles that are not numbers. */
  lemma {:induction false} SameIsEqual(a: Any, b: Any)
    requires Typed(a) && Typed(b)
    ensures Same(a, b) <==> Canonical(a) == Canonical(b) && NanFree(a)
    decreases a
  {
    match a
    case Vec(items) =>
      if b.Vec? && |items| == |b.items| {
        forall i | 0 <= i < |items|
          ensures Same(items[i], b.items[i]) <==> Canonical(items[i]) == Canonical(b.items[i]) && NanFree(items[i])
        {
          SameIsEqual(items[i], b.items[i]);
        }
        VecEqual(items, b.items);
      }
    case Map1A(entries) =>
      if b.Map1A? && |entries| == |b.entries| {
        forall i | 0 <= i < |entries|
          ensures SameEntry(entries[i], b.entries[i]) <==>
                  CanonicalEntry(entries[i]) == CanonicalEntry(b.entries[i]) && NanFreeEntry(entries[i])
        {
          SameIsEqual(entries[i].value, b.entries[i].value);
        }
        MapEqual(entries, b.entries);
      }
    case Num(tag, bits) =>
      if b.Num? && b.tag == tag {
        NumEqual(tag, bits, b.bits);
      }
    case _ =>
  }

  lemma VecEqual(u: seq<Any>, v: seq<Any>)
    requires |u| == |v|
    ensures Canonical(Vec(u)) == Canonical(Vec(v)) <==> forall i :: 0 <= i < |u| ==> Canonical(u[i]) == Canonical(v[i])
  {
    var x, y := Canonical(Vec(u)), Canonical(Vec(v));
    assert forall i :: 0 <= i < |u| ==> x.items[i] == Canonical(u[i]) && y.items[i] == Canonical(v[i]);
    if x == y {
      assert forall i :: 0 <= i < |u| ==> x.items[i] == y.items[i];
    }
  }

  lemma MapEqual(u: seq<Entry>, v: seq<Entry>)
    requires |u| == |v|
    ensures Canonical(Map1A(u)) == Canonical(Map1A(v)) <==>
            forall i :: 0 <= i < |u| ==> CanonicalEntry(u[i]) == CanonicalEntry(v[i])
  {
    var x, y := Canonical(Map1A(u)), Canonical(Map1A(v));
    assert forall i :: 0 <= i < |u| ==> x.entries[i] == CanonicalEntry(u[i]) && y.entries[i] == CanonicalEntry(v[i]);
    if x == y {
      assert forall i :: 0 <= i < |u| ==> x.entries[i] == y.entries[i];
    }
  }

  lemma NumEqual(tag: nat, x: nat, y: nat)
    requires Width(tag) > 0 && x < Span(Width(tag)) && y < Span(Width(tag))
    ensures Same(Num(tag, x), Num(tag, y)) <==>
            Canonical(Num(tag, x)) == Canonical(Num(tag, y)) && NanFree(Num(tag, x))
  {
    SmallMod(x, Span(Width(tag)));
    SmallMod(y, Span(Width(tag)));
    if tag == DOUBLE {
      Spans();
      ZeroDouble(x);
      ZeroDouble(y);
    }
  }

  lemma ZeroDouble(bits: nat)
    requires bits < 2 * SIGN
    ensures bits % SIGN == 0 <==> bits == 0 || bits == SIGN
    ensures !IsNan(0) && !IsNan(SIGN)
  {
  }

  lemma SmallMod(n: nat, m: nat)
    requires n < m
    ensures n % m == n
  {
  }

  // ---------------------------------------------------------------- writing

  function Write(a: Any): seq<byte>
    decreases a, 1
  {
    [(Tag(a) % 256) as byte] + Payload(a)
  }

  function Payload(a: Any): seq<byte>
    decreases a, 0
  {
    match a
    case Null => []
    case Num(tag, bits) => Le(bits, Width(tag))
    case Str(chars) => chars + [0]
    case Vec(items) => Le(|items|, 4) + WriteItems(items)
    case Map1A(entries) => Le(|entries|, 4) + WriteEntries(entries)
  }

  function WriteItems(items: seq<Any>): seq<byte>
    decreases items
  {
    if items == [] then [] else Write(items[0]) + WriteItems(items[1..])
  }

  function WriteEntries(entries: seq<Entry>): seq<byte>
    decreases entries
  {
    if entries == [] then [] else WriteEntry(entries[0]) + WriteEntries(entries[1..])
  }

  function WriteEntry(e: Entry): seq<byte>
    decreases e
  {
    match e
    case Entry(key, value) => [key] + Write(value)
  }

  // ---------------------------------------------------------------- reading

  /** A number that does not lie inside the buffer reads as zero. */
  function NumAt(buf: seq<byte>, pos: nat, width: nat): nat {
    if pos + width > |buf| then 0 else UnLe(buf[pos..pos + width])
  }

  function StrAt(buf: seq<byte>, pos: nat): (r: (seq<byte>, nat))
    ensures r.1 >= pos
    decreases |buf| - pos
  {
    if pos >= |buf| then ([], pos)
    else if buf[pos] == 0 then ([], pos + 1)
    else var (s, end) := StrAt(buf, pos + 1); ([buf[pos]] + s, end)
  }

  function Left(buf: seq<byte>, pos: nat): nat {
    if pos < |buf| then |buf| - pos else 0
  }

  /** std::map::insert leaves an existing entry alone. */
  function Insert(entries: seq<Entry>, e: Entry): seq<Entry> {
    if entries == [] then [e]
    else if entries[0].key == e.key then entries
    else if e.key < entries[0].key then [e] + entries
    else [entries[0]] + Insert(entries[1..], e)
  }

  /** A tag without a payload leaves the target as it is. */
  function Read(buf: seq<byte>, pos: nat, target: Any): (r: (Any, nat))
    ensures r.1 >= pos + 1
    decreases Left(buf, pos), 0
  {
    var tag := NumAt(buf, pos, 1);
    if tag == 0 then (target, pos + 1) else ReadTagged(tag, buf, pos + 1, target)
  }

  function ReadTagged(tag: nat, buf: seq<byte>, pos: nat, target: Any): (r: (Any, nat))
    ensures r.1 >= pos
    decreases Left(buf, pos), WORD + 1
  {
    if Width(tag) > 0 then (Num(tag, NumAt(buf, pos, Width(tag))), pos + Width(tag))
    else if tag == STRING then var (s, end) := StrAt(buf, pos); (Str(s), end)
    else if tag == VECTOR then var (v, end) := ReadItems(buf, pos + 4, NumAt(buf, pos, 4)); (Vec(v), end)
    else if tag == MAP1A then var (m, end) := ReadEntries(buf, pos + 4, NumAt(buf, pos, 4), []); (Map1A(m), end)
    else (target, pos)
  }

  function ReadItems(buf: seq<byte>, pos: nat, n: nat): (r: (seq<Any>, nat))
    ensures r.1 >= pos
    decreases Left(buf, pos), n + 1
  {
    if n == 0 then ([], pos)
    else
      var (x, next) := Read(buf, pos, Null);
      var (v, end) := ReadItems(buf, next, n - 1);
      ([x] + v, end)
  }

  function ReadEntries(buf: seq<byte>, pos: nat, n: nat, sofar: seq<Entry>): (r: (seq<Entry>, nat))
    ensures r.1 >= pos
    decreases Left(buf, pos), n + 1
  {
    if n == 0 then (sofar, pos)
    else
      var (x, next) := Read(buf, pos + 1, Null);
      ReadEntries(buf, next, n - 1, Insert(sofar, Entry(NumAt(buf, pos, 1) as byte, x)))
  }

  // ---------------------------------------------------------------- round trip

  /** w stands in buf at pos. */
  ghost predicate Stands(buf: seq<byte>, pos: nat, w: seq<byte>) {
    pos + |w| <= |buf| && buf[pos..pos + |w|] == w
  }

  lemma StandsSplit(buf: seq<byte>, pos: nat, u: seq<byte>, v: seq<byte>)
    requires Stands(buf, pos, u + v)
    ensures Stands(buf, pos, u) && Stands(buf, pos + |u|, v)
  {
    var w := buf[pos..pos + |u + v|];
    assert w[..|u|] == buf[pos..pos + |u|] && w[|u|..] == buf[pos + |u|..pos + |u| + |v|];
    assert (u + v)[..|u|] == u && (u + v)[|u|..] == v;
  }

  lemma NumStands(buf: seq<byte>, pos: nat, n: nat, width: nat)
    requires n < Span(width) && Stands(buf, pos, Le(n, width))
    ensures NumAt(buf, pos, width) == n
  {
    LeRoundTrip(n, width);
  }

  lemma ByteStands(buf: seq<byte>, pos: nat, b: byte)
    requires Stands(buf, pos, [b])
    ensures NumAt(buf, pos, 1) == b as nat
  {
    assert buf[pos..pos + 1][1..] == [];
    assert UnLe(buf[pos..pos + 1][1..]) == 0;
  }

  lemma Spans()
    ensures Span(1) == 256 && Span(2) == 65536 && Span(4) == WORD && Span(8) == 2 * SIGN
  {
    assert Span(0) == 1 && Span(1) == 256 && Span(2) == 65536 && Span(3) == 16777216;
    assert Span(4) == WORD && Span(5) == 256 * WORD && Span(6) == 65536 * WORD && Span(7) == 16777216 * WORD;
  }

  lemma CountStands(buf: seq<byte>, pos: nat, n: nat, rest: seq<byte>)
    requires n < WORD && Stands(buf, pos, Le(n, 4) + rest)
    ensures NumAt(buf, pos, 4) == n && Stands(buf, pos + 4, rest)
  {
    Spans();
    StandsSplit(buf, pos, Le(n, 4), rest);
    NumStands(buf, pos, n, 4);
  }

  lemma {:induction false} StrStands(buf: seq<byte>, pos: nat, s: seq<byte>)
    requires Stands(buf, pos, s + [0]) && 0 !in s
    ensures StrAt(buf, pos) == (s, pos + |s| + 1)
    decreases |s|
  {
    var w := s + [0];
    assert buf[pos] == w[0];
    if s != [] {
      assert s[0] != 0;
      assert w == [s[0]] + (s[1..] + [0]);
      StandsSplit(buf, pos, [s[0]], s[1..] + [0]);
      StrStands(buf, pos + 1, s[1..]);
      assert s == [s[0]] + s[1..];
    }
  }

  lemma TaggedVec(buf: seq<byte>, pos: nat, items: seq<Any>, target: Any)
    requires NumAt(buf, pos, 4) == |items|
    requires ReadItems(buf, pos + 4, |items|) == (items, pos + 4 + |WriteItems(items)|)
    ensures ReadTagged(VECTOR, buf, pos, target) == (Vec(items), pos + |Payload(Vec(items))|)
  {
  }

  lemma TaggedMap(buf: seq<byte>, pos: nat, entries: seq<Entry>, target: Any)
    requires NumAt(buf, pos, 4) == |entries|
    requires ReadEntries(buf, pos + 4, |entries|, []) == (entries, pos + 4 + |WriteEntries(entries)|)
    ensures ReadTagged(MAP1A, buf, pos, target) == (Map1A(entries), pos + |Payload(Map1A(entries))|)
  {
  }

  lemma {:induction false} ReadWritePayload(buf: seq<byte>, pos: nat, a: Any, target: Any)
    requires Sendable(a) && Stands(buf, pos, Payload(a))
    ensures ReadTagged(Tag(a), buf, pos, target) == (if a.Null? then target else a, pos + |Payload(a)|)
    decreases a, 0
  {
    match a
    case Null =>
    case Num(t, bits) => NumStands(buf, pos, bits, Width(t));
    case Str(chars) => StrStands(buf, pos, chars);
    case Vec(items) =>
      ReadWriteVector(buf, pos, items);
      TaggedVec(buf, pos, items, target);
    case Map1A(entries) =>
      ReadWriteMap(buf, pos, entries);
      TaggedMap(buf, pos, entries, target);
  }

  lemma TagFits(a: Any)
    requires Sendable(a)
    ensures 0 < Tag(a) < 256 && Write(a) == [Tag(a) as byte] + Payload(a)
  {
  }

  /** Main result: reading what was written gives the value and stops at its end, in any buffer. */
  lemma {:induction false} ReadWrite(buf: seq<byte>, pos: nat, a: Any, target: Any)
    requires Sendable(a) && Stands(buf, pos, Write(a))
    ensures Read(buf, pos, target) == (if a.Null? then target else a, pos + |Write(a)|)
    decreases a, 1
  {
    TagFits(a);
    StandsSplit(buf, pos, [Tag(a) as byte], Payload(a));
    ByteStands(buf, pos, Tag(a) as byte);
    ReadWritePayload(buf, pos + 1, a, target);
  }

  lemma ReadWriteVector(buf: seq<byte>, pos: nat, items: seq<Any>)
    requires |items| < WORD && (forall x :: x in items ==> Sendable(x))
    requires Stands(buf, pos, Le(|items|, 4) + WriteItems(items))
    ensures NumAt(buf, pos, 4) == |items|
    ensures ReadItems(buf, pos + 4, |items|) == (items, pos + 4 + |WriteItems(items)|)
    decreases items, |items| + 1
  {
    CountStands(buf, pos, |items|, WriteItems(items));
    ReadWriteItems(buf, pos + 4, items);
  }

  lemma EntryCount(buf: seq<byte>, pos: nat, entries: seq<Entry>)
    requires Sorted(entries) && Stands(buf, pos, Le(|entries|, 4) + WriteEntries(entries))
    ensures NumAt(buf, pos, 4) == |entries| && Stands(buf, pos + 4, WriteEntries(entries))
  {
    SortedShort(entries);
    CountStands(buf, pos, |entries|, WriteEntries(entries));
  }

  lemma ReadWriteMap(buf: seq<byte>, pos: nat, entries: seq<Entry>)
    requires Sorted(entries) && (forall e :: e in entries ==> Sendable(e.value))
    requires Stands(buf, pos, Le(|entries|, 4) + WriteEntries(entries))
    ensures NumAt(buf, pos, 4) == |entries|
    ensures ReadEntries(buf, pos + 4, |entries|, []) == (entries, pos + 4 + |WriteEntries(entries)|)
    decreases entries, |entries| + 2
  {
    EntryCount(buf, pos, entries);
    ReadWriteAllEntries(buf, pos + 4, entries);
  }

  /** The items stand at pos and are read from there. */
  ghost predicate ItemsRead(buf: seq<byte>, pos: nat, items: seq<Any>) {
    ReadItems(buf, pos, |items|) == (items, pos + |WriteItems(items)|)
  }

  lemma ItemsReadStep(buf: seq<byte>, pos: nat, items: seq<Any>)
    requires items != [] && Read(buf, pos, Null) == (items[0], pos + |Write(items[0])|)
    requires ItemsRead(buf, pos + |Write(items[0])|, items[1..])
    ensures ItemsRead(buf, pos, items)
  {
    Uncons(items);
  }

  lemma FirstItem(buf: seq<byte>, pos: nat, items: seq<Any>)
    requires items != [] && Sendable(items[0]) && Stands(buf, pos, WriteItems(items))
    ensures Stands(buf, pos + |Write(items[0])|, WriteItems(items[1..]))
    ensures Read(buf, pos, Null) == (items[0], pos + |Write(items[0])|)
    decreases items, 0
  {
    StandsSplit(buf, pos, Write(items[0]), WriteItems(items[1..]));
    ReadWrite(buf, pos, items[0], Null);
  }

  lemma {:induction false} ReadWriteItems(buf: seq<byte>, pos: nat, items: seq<Any>)
    requires (forall x :: x in items ==> Sendable(x)) && Stands(buf, pos, WriteItems(items))
    ensures ItemsRead(buf, pos, items)
    decreases items, |items|
  {
    if items != [] {
      FirstItem(buf, pos, items);
      ReadWriteItems(buf, pos + |Write(items[0])|, items[1..]);
      ItemsReadStep(buf, pos, items);
    }
  }

  lemma ReadWriteAllEntries(buf: seq<byte>, pos: nat, entries: seq<Entry>)
    requires Sorted(entries) && (forall e :: e in entries ==> Sendable(e.value))
    requires Stands(buf, pos, WriteEntries(entries))
    ensures ReadEntries(buf, pos, |entries|, []) == (entries, pos + |WriteEntries(entries)|)
    decreases entries, |entries| + 1
  {
    Neutral(entries);
    ReadWriteEntries(buf, pos, entries, []);
    EntriesReadAll(buf, pos, entries);
  }

  lemma {:induction false} InsertLast(entries: seq<Entry>, e: Entry)
    requires forall x :: x in entries ==> x.key < e.key
    ensures Insert(entries, e) == entries + [e]
  {
    if entries != [] {
      assert entries[0] in entries;
      InsertLast(entries[1..], e);
    }
  }

  /** The entries stand at pos and are read from there behind those read so far. */
  ghost predicate EntriesRead(buf: seq<byte>, pos: nat, entries: seq<Entry>, sofar: seq<Entry>) {
    ReadEntries(buf, pos, |entries|, sofar) == (sofar + entries, pos + |WriteEntries(entries)|)
  }

  lemma EntriesReadAll(buf: seq<byte>, pos: nat, entries: seq<Entry>)
    requires EntriesRead(buf, pos, entries, [])
    ensures ReadEntries(buf, pos, |entries|, []) == (entries, pos + |WriteEntries(entries)|)
  {
    Neutral(entries);
  }

  lemma EntriesReadStep(buf: seq<byte>, pos: nat, e: Entry, rest: seq<Entry>, sofar: seq<Entry>)
    requires NumAt(buf, pos, 1) == e.key as nat && Read(buf, pos + 1, Null) == (e.value, pos + |WriteEntry(e)|)
    requires Insert(sofar, e) == sofar + [e] && EntriesRead(buf, pos + |WriteEntry(e)|, rest, sofar + [e])
    ensures EntriesRead(buf, pos, [e] + rest, sofar)
  {
    Cons(e, rest);
    Assoc(sofar, [e], rest);
  }

  lemma EntriesReadNone(buf: seq<byte>, pos: nat, sofar: seq<Entry>)
    ensures EntriesRead(buf, pos, [], sofar)
  {
    Neutral(sofar);
  }

  lemma {:induction false} ReadWriteEntries(buf: seq<byte>, pos: nat, entries: seq<Entry>, sofar: seq<Entry>)
    requires Sorted(sofar + entries) && (forall e :: e in entries ==> Sendable(e.value))
    requires Stands(buf, pos, WriteEntries(entries))
    ensures EntriesRead(buf, pos, entries, sofar)
    decreases entries, |entries|
  {
    if entries == [] {
      EntriesReadNone(buf, pos, sofar);
    } else {
      var e, rest := entries[0], entries[1..];
      FirstEntry(buf, pos, entries);
      SortedOn(sofar, e, rest, entries);
      ReadWriteEntries(buf, pos + |WriteEntry(e)|, rest, sofar + [e]);
      EntriesReadStep(buf, pos, e, rest, sofar);
    }
  }

  lemma FirstEntry(buf: seq<byte>, pos: nat, entries: seq<Entry>)
    requires entries != [] && Sendable(entries[0].value) && Stands(buf, pos, WriteEntries(entries))
    ensures var e := entries[0];
            && Stands(buf, pos + |WriteEntry(e)|, WriteEntries(entries[1..]))
            && NumAt(buf, pos, 1) == e.key as nat && Read(buf, pos + 1, Null) == (e.value, pos + |WriteEntry(e)|)
    decreases entries, 0
  {
    StandsSplit(buf, pos, WriteEntry(entries[0]), WriteEntries(entries[1..]));
    ReadWriteEntry(buf, pos, entries[0]);
  }

  lemma SortedOn(sofar: seq<Entry>, e: Entry, rest: seq<Entry>, entries: seq<Entry>)
    requires entries != [] && e == entries[0] && rest == entries[1..] && Sorted(sofar + entries)
    ensures entries == [e] + rest && Sorted(sofar + [e] + rest) && Insert(sofar, e) == sofar + [e]
  {
    LastKey(sofar, entries);
    InsertLast(sofar, e);
    assert sofar + entries == sofar + [e] + rest;
  }

  lemma ReadWriteEntry(buf: seq<byte>, pos: nat, e: Entry)
    requires Sendable(e.value) && Stands(buf, pos, WriteEntry(e))
    ensures NumAt(buf, pos, 1) == e.key as nat
    ensures Read(buf, pos + 1, Null) == (e.value, pos + |WriteEntry(e)|)
    decreases e, 2
  {
    match e
    case Entry(key, value) =>
      StandsSplit(buf, pos, [key], Write(value));
      ByteStands(buf, pos, key);
      ReadWrite(buf, pos + 1, value, Null);
  }

  lemma LastKey(sofar: seq<Entry>, entries: seq<Entry>)
    requires Sorted(sofar + entries) && entries != []
    ensures forall x :: x in sofar ==> x.key < entries[0].key
  {
    forall x | x in sofar ensures x.key < entries[0].key {
      var i :| 0 <= i < |sofar| && sofar[i] == x;
      assert (sofar + entries)[i] == x && (sofar + entries)[|sofar|] == entries[0];
    }
  }

  /** A string comes back exactly when it has no zero byte in it. */
  lemma StringExact(s: seq<byte>)
    ensures Read(Write(Str(s)), 0, Null).0 == Str(s) <==> 0 !in s
  {
    var buf := Write(Str(s));
    assert Stands(buf, 0, buf);
    if 0 !in s {
      ReadWrite(buf, 0, Str(s), Null);
    } else {
      assert buf[0..1] == [buf[0]];
      ByteStands(buf, 0, STRING as byte);
      NoZero(buf, 1);
    }
  }

  lemma {:induction false} NoZero(buf: seq<byte>, pos: nat)
    ensures 0 !in StrAt(buf, pos).0
    decreases |buf| - pos
  {
    if pos < |buf| && buf[pos] != 0 {
      NoZero(buf, pos + 1);
    }
  }

  // ---------------------------------------------------------------- byte by byte

  lemma Widths()
    ensures Width(0x01) == Width(0x02) == 1 && Width(0x03) == Width(0x04) == 2
    ensures Width(0x05) == Width(0x06) == Width(0x21) == 4 && Width(0x07) == Width(0x08) == Width(0x22) == 8
    ensures forall tag :: (tag == 0 || 0x08 < tag < 0x21 || 0x22 < tag) ==> Width(tag) == 0
  {
  }

  /** The bytes of a number: its tag, then its low byte first. */
  lemma WireNumber(tag: nat, bits: nat, k: nat)
    requires 0 < Width(tag) && k < Width(tag)
    ensures var w := Write(Num(tag, bits));
            |w| == 1 + Width(tag) && w[0] as nat == tag % 256 && w[1 + k] as nat == bits / Span(k) % 256
  {
    LeAt(bits, Width(tag), k);
  }

  lemma WireText(text: seq<byte>)
    ensures Write(Null) == [0x42] && Write(Str(text)) == [0x61] + text + [0]
  {
    Assoc([0x61 as byte], text, [0]);
  }

  lemma WireVector(a: Any, b: Any)
    ensures Write(Vec([a, b])) == [0x62, 2, 0, 0, 0] + Write(a) + Write(b)
  {
    SmallCount(2);
    TwoItems(a, b);
    Assoc([0x62 as byte], [2, 0, 0, 0], Write(a) + Write(b));
    Assoc([0x62 as byte, 2, 0, 0, 0], Write(a), Write(b));
  }

  lemma WireMap(key: byte, a: Any)
    ensures Write(Map1A([Entry(key, a)])) == [0x63, 1, 0, 0, 0, key] + Write(a)
  {
    SmallCount(1);
    OneEntry(key, a);
    Assoc([0x63 as byte], [1, 0, 0, 0], [key] + Write(a));
    Assoc([0x63 as byte, 1, 0, 0, 0], [key], Write(a));
  }

  /** Main result: the bytes of the other values: their tag, then a text and a zero, or a count of four
      bytes and the elements. */
  lemma WireForm(text: seq<byte>, a: Any, b: Any, key: byte)
    ensures Write(Null) == [0x42]
    ensures Write(Str(text)) == [0x61] + text + [0]
    ensures Write(Vec([a, b])) == [0x62, 2, 0, 0, 0] + Write(a) + Write(b)
    ensures Write(Map1A([Entry(key, a)])) == [0x63, 1, 0, 0, 0, key] + Write(a)
  {
    WireText(text);
    WireVector(a, b);
    WireMap(key, a);
  }

  lemma SmallCount(n: nat)
    requires n < 256
    ensures Le(n, 4) == [n as byte, 0, 0, 0]
  {
    assert n / 256 == 0 && n % 256 == n;
    assert Le(0, 1) == [0] && Le(0, 2) == [0] + Le(0, 1) && Le(0, 3) == [0] + Le(0, 2);
    assert Le(n, 4) == [n as byte] + Le(0, 3);
  }

  lemma TwoItems(a: Any, b: Any)
    ensures WriteItems([a, b]) == Write(a) + Write(b)
  {
    assert [a, b][1..] == [b] && [b][1..] == [];
    assert WriteItems([b]) == Write(b) + WriteItems([]);
  }

  lemma OneEntry(key: byte, a: Any)
    ensures WriteEntries([Entry(key, a)]) == [key] + Write(a)
  {
    assert WriteEntries([Entry(key, a)]) == WriteEntry(Entry(key, a)) + [];
  }

  /** Past the end everything is zero; a text ends at the first zero, or with the buffer. */
  lemma PastTheEnd(buf: seq<byte>, pos: nat, width: nat)
    ensures pos + width > |buf| ==> NumAt(buf, pos, width) == 0
    ensures pos >= |buf| ==> StrAt(buf, pos) == ([], pos)
  {
  }

  /** A tag that is not known has no payload, and leaves the target alone. */
  lemma UnknownTag(buf: seq<byte>, pos: nat, target: Any)
    requires pos < |buf|
    requires var tag := buf[pos];
             tag == 0 || 0x08 < tag < 0x21 || 0x22 < tag < 0x61 || tag > 0x63
    ensures Read(buf, pos, target) == (target, pos + 1)
  {
    assert buf[pos..pos + 1] == [buf[pos]];
    ByteStands(buf, pos, buf[pos]);
  }

  lemma {:induction false} StrAtExact(buf: seq<byte>, pos: nat)
    requires pos <= |buf|
    ensures var (s, end) := StrAt(buf, pos);
            && pos + |s| <= |buf| && s == buf[pos..pos + |s|] && 0 !in s
            && (if pos + |s| < |buf| then buf[pos + |s|] == 0 && end == pos + |s| + 1 else end == |buf|)
    decreases |buf| - pos
  {
    if pos < |buf| && buf[pos] != 0 {
      StrAtExact(buf, pos + 1);
      var (s, end) := StrAt(buf, pos + 1);
      assert buf[pos..pos + 1 + |s|] == [buf[pos]] + buf[pos + 1..pos + 1 + |s|];
    }
  }

  /** An entry whose key is there already is dropped; another one takes its place in the order. */
  lemma {:induction false} InsertExact(entries: seq<Entry>, e: Entry)
    requires Sorted(entries)
    ensures Sorted(Insert(entries, e))
    ensures forall x :: x in Insert(entries, e) <==>
                        x in entries || (x == e && forall y :: y in entries ==> y.key != e.key)
  {
    if entries != [] && e.key > entries[0].key {
      assert Sorted(entries[1..]);
      InsertExact(entries[1..], e);
      var r := Insert(entries[1..], e);
      assert forall x :: x in entries[1..] ==> x.key > entries[0].key;
      forall i, j | 0 <= i < j < |[entries[0]] + r| ensures ([entries[0]] + r)[i].key < ([entries[0]] + r)[j].key {
        assert ([entries[0]] + r)[j] in r;
      }
      assert forall x :: x in entries <==> x == entries[0] || x in entries[1..];
    } else if entries != [] {
      assert forall x :: x in entries ==> x.key >= entries[0].key;
      assert entries[0] in entries;
    }
  }
}
