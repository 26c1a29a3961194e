/** Typed metadata trees with cached depth and size (crates/postproject-core/src/metadata.rs). */
module Metadata {
  import opened Wrappers
  import opened Machine
  import opened Utf8
  import opened Identity
  import opened Scalars

  const MAX_PROPERTY_ID_BYTES := 255
  const MAX_METADATA_TEXT_BYTES := 1024 * 1024
  const MAX_METADATA_URI_BYTES := 4096
  const MAX_METADATA_BINARY_BYTES := 15 * 1024 * 1024
  const MAX_LANGUAGE_TAG_BYTES := 64
  const MAX_METADATA_COLLECTION_ITEMS := 4096
  const MAX_METADATA_NESTING_DEPTH := 32
  const MAX_METADATA_TOTAL_BYTES := 15 * 1024 * 1024

  /** Library predicates whose definition is not part of this model. */
  datatype Library = Library(isUrl: string -> bool, isWhitespace: char -> bool, isControl: char -> bool)

  /** A value with the depth and payload its constructor cached; the fields are private in the source. */
  datatype Value = Value(inner: Inner, depth: nat, payload: nat)

  datatype Inner =
    | Text(text: string)
    | LangText(langText: string, language: string)
    | Signed(i64: I64)
    | Unsigned(u64: U64)
    | DecimalNumber(decimal: DecimalValue)
    | Boolean(flag: bool)
    | Timestamp(micros: I64)
    | Uri(uri: string)
    | Bytes(bytes: seq<U8>)
    | RationalNumber(rational: RationalValue)
    | List(values: seq<Value>)
    | Structure(fields: seq<Field>)
    | Reference(target: ObjectRef)

  datatype Field = Field(name: string, value: Value)

  // ---- Validation ----

  predicate TextIsValid(text: string, maximum: nat) {
    Utf8Length(text) <= maximum && '\0' !in text
  }

  predicate IsAsciiAlphanumeric(c: char) {
    '0' <= c <= '9' || 'a' <= c <= 'z' || 'A' <= c <= 'Z'
  }

  /** Letters, digits and single hyphens that separate non-empty subtags; such text is ASCII. */
  predicate LanguageTagIsValid(tag: string) {
    && tag != ""
    && Utf8Length(tag) <= MAX_LANGUAGE_TAG_BYTES
    && tag[0] != '-'
    && tag[|tag| - 1] != '-'
    && (forall c :: c in tag ==> IsAsciiAlphanumeric(c) || c == '-')
    && "" !in Split(tag, '-')
  }

  predicate PropertyIdIsValid(lib: Library, name: string) {
    && 1 <= Utf8Length(name) <= MAX_PROPERTY_ID_BYTES
    && forall c :: c in name ==> !lib.isWhitespace(c) && !lib.isControl(c)
  }

  // ---- Constructors ----

  function Leaf(inner: Inner, payload: nat): Value {
    Value(inner, 1, payload)
  }

  function NewText(text: string): Result<Value> {
    if TextIsValid(text, MAX_METADATA_TEXT_BYTES) then Ok(Leaf(Text(text), Utf8Length(text))) else Err(InvalidArgument)
  }

  function NewLangText(text: string, language: string): Result<Value> {
    if !TextIsValid(text, MAX_METADATA_TEXT_BYTES) || !LanguageTagIsValid(language) then
      Err(InvalidArgument)
    else
      var payload :- CheckedPayloadSum([Utf8Length(text), Utf8Length(language)]);
      Ok(Leaf(LangText(text, language), payload))
  }

  function NewSigned(i64: I64): Value {
    Leaf(Signed(i64), 8)
  }

  function NewUnsigned(u64: U64): Value {
    Leaf(Unsigned(u64), 8)
  }

  function NewDecimalNumber(decimal: DecimalValue): Value {
    Leaf(DecimalNumber(decimal), 20)
  }

  function NewBoolean(b: bool): Value {
    Leaf(Boolean(b), 1)
  }

  function NewTimestamp(micros: I64): Value {
    Leaf(Timestamp(micros), 8)
  }

  function NewUri(lib: Library, uri: string): Result<Value> {
    if TextIsValid(uri, MAX_METADATA_URI_BYTES) && lib.isUrl(uri)
    then Ok(Leaf(Uri(uri), Utf8Length(uri)))
    else Err(InvalidArgument)
  }

  function NewBytes(bytes: seq<U8>): Result<Value> {
    if |bytes| > MAX_METADATA_BINARY_BYTES then Err(InvalidArgument) else Ok(Leaf(Bytes(bytes), |bytes|))
  }

  function NewRationalNumber(rational: RationalValue): Value {
    Leaf(RationalNumber(rational), 16)
  }

  function NewReference(target: ObjectRef): Value {
    Leaf(Reference(target), 17)
  }

  function NewList(values: seq<Value>): Result<Value> {
    if |values| > MAX_METADATA_COLLECTION_ITEMS then
      Err(InvalidArgument)
    else
      var depth :- CompositeDepth(seq(|values|, i requires 0 <= i < |values| => values[i].depth));
      var payload :- CheckedPayloadSum(seq(|values|, i requires 0 <= i < |values| => values[i].payload));
      Ok(Value(List(values), depth, payload))
  }

  function NewField(lib: Library, name: string, value: Value): Result<Field> {
    if PropertyIdIsValid(lib, name) then Ok(Field(name, value)) else Err(InvalidArgument)
  }

  function NewStructure(fields: seq<Field>): Result<Value> {
    if |fields| > MAX_METADATA_COLLECTION_ITEMS then
      Err(InvalidArgument)
    else
      var depth :- CompositeDepth(seq(|fields|, i requires 0 <= i < |fields| => fields[i].value.depth));
      var payload :- CheckedPayloadSum(FieldSizes(fields));
      Ok(Value(Structure(fields), depth, payload))
  }

  /** Name and value sizes of the fields, flattened in order. */
  function FieldSizes(fields: seq<Field>): seq<nat> {
    if fields == [] then
      []
    else
      var last := fields[|fields| - 1];
      FieldSizes(fields[..|fields| - 1]) + [Utf8Length(last.name), last.value.payload]
  }

  // ---- Limits ----

  function MaxOf(depths: seq<nat>): nat {
    if depths == [] then
      0
    else
      var front, last := MaxOf(depths[..|depths| - 1]), depths[|depths| - 1];
      if last > front then last else front
  }

  function Sum(sizes: seq<nat>): nat {
    if sizes == [] then 0 else Sum(sizes[..|sizes| - 1]) + sizes[|sizes| - 1]
  }

  function CompositeDepth(depths: seq<nat>): Result<nat> {
    var depth := MaxOf(depths) + 1;
    if depth > MAX_METADATA_NESTING_DEPTH then Err(InvalidArgument) else Ok(depth)
  }

  function CheckedPayloadSum(sizes: seq<nat>): Result<nat> {
    if Sum(sizes) > MAX_METADATA_TOTAL_BYTES then Err(InvalidArgument) else Ok(Sum(sizes))
  }

  /**
   * The loop of `checked_payload_sum`: it stops at the first prefix over the limit, before the 64-bit
   * total could wrap, and still decides by the full sum.
   */
  method SumPayloads(sizes: seq<U64>) returns (total: Result<nat>)
    ensures total == CheckedPayloadSum(sizes)
  {
    var t: nat := 0;
    for i := 0 to |sizes|
      invariant t == Sum(sizes[..i]) <= MAX_METADATA_TOTAL_BYTES
    {
      PrefixSum(sizes, i);
      PrefixSum(sizes, i + 1);
      assert sizes[..i + 1][..i] == sizes[..i];
      if t + sizes[i] > U64_MAX {
        return Err(InvalidArgument);
      }
      t := t + sizes[i];
      if t > MAX_METADATA_TOTAL_BYTES {
        return Err(InvalidArgument);
      }
    }
    assert sizes[..|sizes|] == sizes;
    total := Ok(t);
  }

  lemma {:induction false} PrefixSum(sizes: seq<nat>, n: nat)
    requires n <= |sizes|
    ensures Sum(sizes[..n]) <= Sum(sizes)
    decreases |sizes|
  {
    if n < |sizes| {
      PrefixSum(sizes[..|sizes| - 1], n);
      assert sizes[..|sizes| - 1][..n] == sizes[..n];
    } else {
      assert sizes[..n] == sizes;
    }
  }

  // ---- Trees reachable through the constructors ----

  /** Every node is what its constructor returns for its own contents. */
  predicate Constructible(lib: Library, v: Value)
    decreases v
  {
    match v.inner
    case Text(text) => NewText(text) == Ok(v)
    case LangText(text, language) => NewLangText(text, language) == Ok(v)
    case Signed(i) => NewSigned(i) == v
    case Unsigned(u) => NewUnsigned(u) == v
    case DecimalNumber(d) => NewDecimalNumber(d) == v
    case Boolean(b) => NewBoolean(b) == v
    case Timestamp(t) => NewTimestamp(t) == v
    case Uri(uri) => NewUri(lib, uri) == Ok(v)
    case Bytes(bytes) => NewBytes(bytes) == Ok(v)
    case RationalNumber(r) => NewRationalNumber(r) == v
    case List(values) =>
      && (forall i :: 0 <= i < |values| ==> Constructible(lib, values[i]))
      && NewList(values) == Ok(v)
    case Structure(fields) =>
      && (forall i :: 0 <= i < |fields| ==> FieldIsConstructible(lib, fields[i]))
      && NewStructure(fields) == Ok(v)
    case Reference(target) => NewReference(target) == v
  }

  predicate FieldIsConstructible(lib: Library, field: Field)
    decreases field
  {
    NewField(lib, field.name, field.value) == Ok(field) && Constructible(lib, field.value)
  }

  // ---- Depth and size recomputed from the contents alone ----

  function Depth(v: Value): nat
    decreases v, 1
  {
    match v.inner
    case List(values) => 1 + ListDepth(values)
    case Structure(fields) => 1 + FieldsDepth(fields)
    case _ => 1
  }

  function ListDepth(values: seq<Value>): nat
    decreases values, 0
  {
    if values == [] then
      0
    else
      var front, last := ListDepth(values[..|values| - 1]), Depth(values[|values| - 1]);
      if last > front then last else front
  }

  function FieldsDepth(fields: seq<Field>): nat
    decreases fields, 0
  {
    if fields == [] then
      0
    else
      var front, last := FieldsDepth(fields[..|fields| - 1]), Depth(fields[|fields| - 1].value);
      if last > front then last else front
  }

  function Payload(v: Value): nat
    decreases v, 1
  {
    match v.inner
    case Text(text) => Utf8Length(text)
    case LangText(text, language) => Utf8Length(text) + Utf8Length(language)
    case Signed(_) => 8
    case Unsigned(_) => 8
    case DecimalNumber(_) => 20
    case Boolean(_) => 1
    case Timestamp(_) => 8
    case Uri(uri) => Utf8Length(uri)
    case Bytes(bytes) => |bytes|
    case RationalNumber(_) => 16
    case List(values) => ListPayload(values)
    case Structure(fields) => FieldsPayload(fields)
    case Reference(_) => 17
  }

  function ListPayload(values: seq<Value>): nat
    decreases values, 0
  {
    if values == [] then 0 else ListPayload(values[..|values| - 1]) + Payload(values[|values| - 1])
  }

  function FieldsPayload(fields: seq<Field>): nat
    decreases fields, 0
  {
    if fields == [] then
      0
    else
      var last := fields[|fields| - 1];
      FieldsPayload(fields[..|fields| - 1]) + Utf8Length(last.name) + Payload(last.value)
  }

  /** At this node and every node below, the cache equals the recomputation and keeps the limits. */
  ghost predicate CachesAreExact(v: Value)
    decreases v
  {
    && v.depth == Depth(v) <= 32
    && v.payload == Payload(v) <= 15_728_640
    && (v.inner.List? ==> forall i :: 0 <= i < |v.inner.values| ==> CachesAreExact(v.inner.values[i]))
    && (v.inner.Structure? ==>
          forall i :: 0 <= i < |v.inner.fields| ==> CachesAreExact(v.inner.fields[i].value))
  }

  lemma {:induction false} ListSums(values: seq<Value>)
    requires forall i :: 0 <= i < |values| ==> CachesAreExact(values[i])
    ensures MaxOf(seq(|values|, i requires 0 <= i < |values| => values[i].depth)) == ListDepth(values)
    ensures Sum(seq(|values|, i requires 0 <= i < |values| => values[i].payload)) == ListPayload(values)
  {
    if values != [] {
      var n, front := |values|, values[..|values| - 1];
      ListSums(front);
      assert seq(n, i requires 0 <= i < n => values[i].depth)[..n - 1]
          == seq(n - 1, i requires 0 <= i < n - 1 => front[i].depth);
      assert seq(n, i requires 0 <= i < n => values[i].payload)[..n - 1]
          == seq(n - 1, i requires 0 <= i < n - 1 => front[i].payload);
    }
  }

  lemma {:induction false} FieldSums(fields: seq<Field>)
    requires forall i :: 0 <= i < |fields| ==> CachesAreExact(fields[i].value)
    ensures MaxOf(seq(|fields|, i requires 0 <= i < |fields| => fields[i].value.depth)) == FieldsDepth(fields)
    ensures Sum(FieldSizes(fields)) == FieldsPayload(fields)
  {
    if fields != [] {
      var n, front := |fields|, fields[..|fields| - 1];
      FieldSums(front);
      assert seq(n, i requires 0 <= i < n => fields[i].value.depth)[..n - 1]
          == seq(n - 1, i requires 0 <= i < n - 1 => front[i].value.depth);
      SumOfPair(FieldSizes(front), Utf8Length(fields[n - 1].name), fields[n - 1].value.payload);
    }
  }

  lemma SumOfPair(sizes: seq<nat>, a: nat, b: nat)
    ensures Sum(sizes + [a, b]) == Sum(sizes) + a + b
  {
    assert (sizes + [a, b])[..|sizes| + 1] == sizes + [a];
    assert (sizes + [a])[..|sizes|] == sizes;
  }

  lemma LeafCachesAreExact(lib: Library, v: Value)
    requires Constructible(lib, v) && !v.inner.List? && !v.inner.Structure?
    ensures CachesAreExact(v)
  {
    hide Encode, LanguageTagIsValid;
    if v.inner.LangText? {
      var a, b := Utf8Length(v.inner.langText), Utf8Length(v.inner.language);
      SumOfPair([], a, b);
      assert [] + [a, b] == [a, b];
    }
  }

  lemma ListCachesAreExact(v: Value)
    requires v.inner.List? && NewList(v.inner.values) == Ok(v)
    requires forall i :: 0 <= i < |v.inner.values| ==> CachesAreExact(v.inner.values[i])
    ensures CachesAreExact(v)
  {
    hide MaxOf, Sum, ListDepth, ListPayload;
    ListSums(v.inner.values);
  }

  lemma StructureCachesAreExact(v: Value)
    requires v.inner.Structure? && NewStructure(v.inner.fields) == Ok(v)
    requires forall i :: 0 <= i < |v.inner.fields| ==> CachesAreExact(v.inner.fields[i].value)
    ensures CachesAreExact(v)
  {
    hide MaxOf, Sum, FieldsDepth, FieldsPayload, FieldSizes;
    FieldSums(v.inner.fields);
  }

  /** Caches are exact in every tree the constructors can build. */
  lemma {:induction false} ConstructedCachesAreExact(lib: Library, v: Value)
    requires Constructible(lib, v)
    ensures CachesAreExact(v)
    decreases v
  {
    hide CachesAreExact, NewList, NewStructure, PropertyIdIsValid;
    match v.inner
    case List(values) =>
      forall i | 0 <= i < |values|
        ensures CachesAreExact(values[i])
      {
        ConstructedCachesAreExact(lib, values[i]);
      }
      ListCachesAreExact(v);
    case Structure(fields) =>
      forall i | 0 <= i < |fields|
        ensures CachesAreExact(fields[i].value)
      {
        ConstructedCachesAreExact(lib, fields[i].value);
      }
      StructureCachesAreExact(v);
    case _ =>
      LeafCachesAreExact(lib, v);
  }

  /** A list of valid values is refused exactly when one of the three limits is exceeded. */
  lemma ListFailsExactly(lib: Library, values: seq<Value>)
    requires forall i :: 0 <= i < |values| ==> Constructible(lib, values[i])
    ensures NewList(values).Ok?
       <==> && |values| <= 4096
            && 1 + ListDepth(values) <= 32
            && ListPayload(values) <= 15_728_640
    ensures NewList(values).Ok? ==> Constructible(lib, NewList(values).value)
  {
    forall i | 0 <= i < |values|
      ensures CachesAreExact(values[i])
    {
      ConstructedCachesAreExact(lib, values[i]);
    }
    ListSums(values);
  }

  /** A structure of valid fields likewise. */
  lemma StructureFailsExactly(lib: Library, fields: seq<Field>)
    requires forall i :: 0 <= i < |fields| ==> FieldIsConstructible(lib, fields[i])
    ensures NewStructure(fields).Ok?
       <==> && |fields| <= 4096
            && 1 + FieldsDepth(fields) <= 32
            && FieldsPayload(fields) <= 15_728_640
    ensures NewStructure(fields).Ok? ==> Constructible(lib, NewStructure(fields).value)
  {
    forall i | 0 <= i < |fields|
      ensures CachesAreExact(fields[i].value)
    {
      ConstructedCachesAreExact(lib, fields[i].value);
    }
    FieldSums(fields);
  }
}
