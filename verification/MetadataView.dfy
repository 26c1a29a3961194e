/** The CLI's view and input forms of metadata values (crates/postproject-cli/src/main.rs). */
module MetadataView {
  import opened Wrappers
  import opened Machine
  import opened Utf8
  import opened Hex
  import opened Identity
  import opened IntegerText
  import opened Scalars
  import opened Metadata

  /** What the CLI writes: the JSON object of each value kind. */
  datatype View =
    | TextView(text: string)
    | LangTextView(langText: string, language: string)
    | SignedView(i64: I64)
    | UnsignedView(u64: U64)
    | DecimalView(coefficient: string, scale: U32)
    | BooleanView(flag: bool)
    | TimestampView(micros: I64)
    | UriView(uri: string)
    | BytesView(hex: string)
    | RationalView(numerator: I64, denominator: U64)
    | ListView(values: seq<View>)
    | StructureView(fields: seq<FieldView>)
    | ReferenceView(target: map<string, string>)  // the members of the nested object, by name

  datatype FieldView = FieldView(name: string, value: View)

  /** What the CLI reads. A reference names its members `target_kind` and `target_id`. */
  datatype Input =
    | TextInput(text: string)
    | LangTextInput(langText: string, language: string)
    | SignedInput(i64: I64)
    | UnsignedInput(u64: U64)
    | DecimalInput(coefficient: string, scale: U32)
    | BooleanInput(flag: bool)
    | TimestampInput(micros: I64)
    | UriInput(uri: string)
    | BytesInput(hex: string)
    | RationalInput(numerator: I64, denominator: U64)
    | ListInput(values: seq<Input>)
    | StructureInput(fields: seq<FieldInput>)
    | ReferenceInput(targetKind: TargetKind, targetId: string)

  datatype FieldInput = FieldInput(name: string, value: Input)

  datatype TargetKind = ProductionTarget | AssetTarget | RepresentationTarget | ResourceTarget | ActivityTarget

  // ---- Writing ----

  function ValueView(v: Value): View
    decreases v
  {
    match v.inner
    case Text(text) => TextView(text)
    case LangText(text, language) => LangTextView(text, language)
    case Signed(i) => SignedView(i)
    case Unsigned(u) => UnsignedView(u)
    case DecimalNumber(d) => DecimalView(PrintInt(d.coefficient), d.scale)
    case Boolean(b) => BooleanView(b)
    case Timestamp(t) => TimestampView(t)
    case Uri(uri) => UriView(uri)
    case Bytes(bytes) => BytesView(HexEncode(bytes))
    case RationalNumber(r) => RationalView(r.numerator, r.denominator)
    case List(values) => ListView(seq(|values|, i requires 0 <= i < |values| => ValueView(values[i])))
    case Structure(fields) =>
      StructureView(seq(|fields|, i requires 0 <= i < |fields| =>
                                    FieldView(fields[i].name, ValueView(fields[i].value))))
    case Reference(target) => ReferenceView(map["kind" := ObjectKind(target), "id" := PrintUuid(target.id)])
  }

  /**
   * Reading the written JSON into the input form. The kinds have the same members in both forms; the
   * nested object of a reference is read by its member names, and other members are ignored.
   */
  function ReadBack(view: View): Result<Input>
    decreases view, 1
  {
    match view
    case TextView(text) => Ok(TextInput(text))
    case LangTextView(text, language) => Ok(LangTextInput(text, language))
    case SignedView(i) => Ok(SignedInput(i))
    case UnsignedView(u) => Ok(UnsignedInput(u))
    case DecimalView(coefficient, scale) => Ok(DecimalInput(coefficient, scale))
    case BooleanView(b) => Ok(BooleanInput(b))
    case TimestampView(t) => Ok(TimestampInput(t))
    case UriView(uri) => Ok(UriInput(uri))
    case BytesView(hex) => Ok(BytesInput(hex))
    case RationalView(n, d) => Ok(RationalInput(n, d))
    case ListView(values) => var inputs :- ReadBackAll(values); Ok(ListInput(inputs))
    case StructureView(fields) => var inputs :- ReadBackFields(fields); Ok(StructureInput(inputs))
    case ReferenceView(target) => ReadTarget(target)
  }

  /** Both members are required. */
  function ReadTarget(target: map<string, string>): Result<Input> {
    if "target_kind" in target && "target_id" in target then
      var kind :- ParseTargetKind(target["target_kind"]);
      Ok(ReferenceInput(kind, target["target_id"]))
    else
      Err(InvalidArgument)
  }

  function ParseTargetKind(kind: string): Result<TargetKind> {
    if kind == "production" then Ok(ProductionTarget)
    else if kind == "asset" then Ok(AssetTarget)
    else if kind == "representation" then Ok(RepresentationTarget)
    else if kind == "resource" then Ok(ResourceTarget)
    else if kind == "activity" then Ok(ActivityTarget)
    else Err(InvalidArgument)
  }

  function ReadBackAll(views: seq<View>): Result<seq<Input>>
    decreases views, 0
  {
    if views == [] then
      Ok([])
    else
      var first :- ReadBack(views[0]);
      var rest :- ReadBackAll(views[1..]);
      Ok([first] + rest)
  }

  function ReadBackFields(views: seq<FieldView>): Result<seq<FieldInput>>
    decreases views, 0
  {
    if views == [] then
      Ok([])
    else
      var first :- ReadBack(views[0].value);
      var rest :- ReadBackFields(views[1..]);
      Ok([FieldInput(views[0].name, first)] + rest)
  }

  // ---- Reading ----

  function ParseTarget(kind: TargetKind, id: string): Result<ObjectRef> {
    match ParseUuid(id)
    case None => Err(InvalidArgument)
    case Some(uuid) =>
      Ok(match kind
         case ProductionTarget => Production(uuid)
         case AssetTarget => Asset(uuid)
         case RepresentationTarget => Representation(uuid)
         case ResourceTarget => Resource(uuid)
         case ActivityTarget => Activity(uuid))
  }

  function IntoValue(lib: Library, input: Input): Result<Value>
    decreases input, 1
  {
    match input
    case TextInput(text) => NewText(text)
    case LangTextInput(text, language) => NewLangText(text, language)
    case SignedInput(i) => Ok(NewSigned(i))
    case UnsignedInput(u) => Ok(NewUnsigned(u))
    case DecimalInput(text, scale) =>
      var coefficient :- ParseInt(text, I128_MIN, I128_MAX);
      ParsedIsInRange(text, I128_MIN, I128_MAX);
      var decimal :- NewDecimal(coefficient, scale);
      Ok(NewDecimalNumber(decimal))
    case BooleanInput(b) => Ok(NewBoolean(b))
    case TimestampInput(t) => Ok(NewTimestamp(t))
    case UriInput(uri) => NewUri(lib, uri)
    case BytesInput(hex) =>
      (match HexDecode(hex)
       case None => Err(InvalidArgument)
       case Some(bytes) => NewBytes(bytes))
    case RationalInput(n, d) =>
      var rational :- NewRational(n, d);
      Ok(NewRationalNumber(rational))
    case ListInput(inputs) => var values :- IntoValues(lib, inputs); NewList(values)
    case StructureInput(inputs) => var fields :- IntoFields(lib, inputs); NewStructure(fields)
    case ReferenceInput(kind, id) => var target :- ParseTarget(kind, id); Ok(NewReference(target))
  }

  function IntoValues(lib: Library, inputs: seq<Input>): Result<seq<Value>>
    decreases inputs, 0
  {
    if inputs == [] then
      Ok([])
    else
      var first :- IntoValue(lib, inputs[0]);
      var rest :- IntoValues(lib, inputs[1..]);
      Ok([first] + rest)
  }

  function IntoFields(lib: Library, inputs: seq<FieldInput>): Result<seq<Field>>
    decreases inputs, 0
  {
    if inputs == [] then
      Ok([])
    else
      var value :- IntoValue(lib, inputs[0].value);
      var first :- NewField(lib, inputs[0].name, value);
      var rest :- IntoFields(lib, inputs[1..]);
      Ok([first] + rest)
  }

  // ---- The round trip ----

  predicate HasReference(v: Value)
    decreases v
  {
    match v.inner
    case List(values) => exists i :: 0 <= i < |values| && HasReference(values[i])
    case Structure(fields) => exists i :: 0 <= i < |fields| && HasReference(fields[i].value)
    case Reference(_) => true
    case _ => false
  }

  /** Writing a value and reading it back. */
  function RoundTrip(lib: Library, v: Value): Result<Value> {
    var input :- ReadBack(ValueView(v));
    IntoValue(lib, input)
  }

  /** The outcome of the round trip: the value itself, or a refusal exactly when a reference occurs. */
  ghost predicate RoundTrips(lib: Library, v: Value) {
    && (ReadBack(ValueView(v)).Err? <==> HasReference(v))
    && RoundTrip(lib, v) == if HasReference(v) then Err(InvalidArgument) else Ok(v)
  }

  function Views(values: seq<Value>): seq<View> {
    seq(|values|, i requires 0 <= i < |values| => ValueView(values[i]))
  }

  function FieldViews(fields: seq<Field>): seq<FieldView> {
    seq(|fields|, i requires 0 <= i < |fields| => FieldView(fields[i].name, ValueView(fields[i].value)))
  }

  predicate AnyReference(values: seq<Value>) {
    exists i :: 0 <= i < |values| && HasReference(values[i])
  }

  predicate AnyFieldReference(fields: seq<Field>) {
    exists i :: 0 <= i < |fields| && HasReference(fields[i].value)
  }

  /** Reading back a list of written values, given the round trip of each. */
  lemma {:induction false} ListRoundTrip(lib: Library, values: seq<Value>)
    requires forall i :: 0 <= i < |values| ==> RoundTrips(lib, values[i])
    ensures if AnyReference(values)
            then ReadBackAll(Views(values)) == Err(InvalidArgument)
            else && ReadBackAll(Views(values)).Ok?
                 && IntoValues(lib, ReadBackAll(Views(values)).value) == Ok(values)
  {
    hide ValueView, ReadBack, IntoValue, HasReference;
    if values != [] {
      var rest := values[1..];
      ListRoundTrip(lib, rest);
      assert Views(values)[1..] == Views(rest);
      assert RoundTrips(lib, values[0]);
      AnyReferenceSplits(values);
      assert values == [values[0]] + rest;
    }
  }

  lemma AnyReferenceSplits(values: seq<Value>)
    requires values != []
    ensures AnyReference(values) <==> HasReference(values[0]) || AnyReference(values[1..])
  {
    hide HasReference;
    if i :| 0 <= i < |values| && HasReference(values[i]) {
      assert i > 0 ==> HasReference(values[1..][i - 1]);
    }
    if i :| 0 <= i < |values[1..]| && HasReference(values[1..][i]) {
      assert HasReference(values[i + 1]);
    }
  }

  lemma {:induction false} FieldsRoundTrip(lib: Library, fields: seq<Field>)
    requires forall i :: 0 <= i < |fields| ==> RoundTrips(lib, fields[i].value)
    requires forall i :: 0 <= i < |fields| ==> PropertyIdIsValid(lib, fields[i].name)
    ensures if AnyFieldReference(fields)
            then ReadBackFields(FieldViews(fields)) == Err(InvalidArgument)
            else && ReadBackFields(FieldViews(fields)).Ok?
                 && IntoFields(lib, ReadBackFields(FieldViews(fields)).value) == Ok(fields)
  {
    hide ValueView, ReadBack, IntoValue, HasReference, PropertyIdIsValid;
    if fields != [] {
      var rest := fields[1..];
      FieldsRoundTrip(lib, rest);
      assert FieldViews(fields)[1..] == FieldViews(rest);
      assert RoundTrips(lib, fields[0].value);
      AnyFieldReferenceSplits(fields);
      assert fields == [fields[0]] + rest;
    }
  }

  lemma AnyFieldReferenceSplits(fields: seq<Field>)
    requires fields != []
    ensures AnyFieldReference(fields) <==> HasReference(fields[0].value) || AnyFieldReference(fields[1..])
  {
    hide HasReference;
    if i :| 0 <= i < |fields| && HasReference(fields[i].value) {
      assert i > 0 ==> HasReference(fields[1..][i - 1].value);
    }
    if i :| 0 <= i < |fields[1..]| && HasReference(fields[1..][i].value) {
      assert HasReference(fields[i + 1].value);
    }
  }

  lemma LeafRoundTrip(lib: Library, v: Value)
    requires Constructible(lib, v) && !v.inner.List? && !v.inner.Structure?
    ensures RoundTrips(lib, v)
  {
    hide PrintInt, ParseInt, HexEncode, HexDecode, NewDecimal, NewRational;
    hide Utf8Length, LanguageTagIsValid, PrintUuid;
    match v.inner
    case DecimalNumber(d) =>
      PrintedTextParses(d.coefficient, I128_MIN, I128_MAX);
      DecimalIsFixed(d);
    case Bytes(bytes) =>
      HexRoundTrip(bytes);
    case RationalNumber(r) =>
      RationalIsFixed(r);
    case _ =>
  }

  /**
   * Every tree the constructors can build survives being written and read exactly when no reference
   * occurs in it, and comes back structurally equal: limits, caches, decimals and rationals included.
   */
  lemma {:induction false} ViewRoundTrip(lib: Library, v: Value)
    requires Constructible(lib, v)
    ensures RoundTrip(lib, v) == if HasReference(v) then Err(InvalidArgument) else Ok(v)
    ensures RoundTrips(lib, v)
    decreases v
  {
    match v.inner
    case List(values) =>
      forall i | 0 <= i < |values|
        ensures RoundTrips(lib, values[i])
      {
        ViewRoundTrip(lib, values[i]);
      }
      ListNodeRoundTrips(lib, v);
    case Structure(fields) =>
      forall i | 0 <= i < |fields|
        ensures RoundTrips(lib, fields[i].value) && PropertyIdIsValid(lib, fields[i].name)
      {
        assert FieldIsConstructible(lib, fields[i]);
        ViewRoundTrip(lib, fields[i].value);
      }
      StructureNodeRoundTrips(lib, v);
    case _ =>
      LeafRoundTrip(lib, v);
  }

  lemma ListNodeRoundTrips(lib: Library, v: Value)
    requires v.inner.List? && NewList(v.inner.values) == Ok(v)
    requires forall i :: 0 <= i < |v.inner.values| ==> RoundTrips(lib, v.inner.values[i])
    ensures RoundTrips(lib, v)
  {
    hide NewList, ReadBackAll, IntoValues, ValueView, HasReference, Views, AnyReference;
    ListRoundTrip(lib, v.inner.values);
    ListNodeView(v);
  }

  lemma ListNodeView(v: Value)
    requires v.inner.List?
    ensures ValueView(v) == ListView(Views(v.inner.values))
    ensures HasReference(v) <==> AnyReference(v.inner.values)
  {}

  lemma StructureNodeRoundTrips(lib: Library, v: Value)
    requires v.inner.Structure? && NewStructure(v.inner.fields) == Ok(v)
    requires forall i :: 0 <= i < |v.inner.fields| ==> RoundTrips(lib, v.inner.fields[i].value)
    requires forall i :: 0 <= i < |v.inner.fields| ==> PropertyIdIsValid(lib, v.inner.fields[i].name)
    ensures RoundTrips(lib, v)
  {
    hide NewStructure, ReadBackFields, IntoFields, ValueView, HasReference, FieldViews, AnyFieldReference;
    FieldsRoundTrip(lib, v.inner.fields);
    StructureNodeView(v);
  }

  lemma StructureNodeView(v: Value)
    requires v.inner.Structure?
    ensures ValueView(v) == StructureView(FieldViews(v.inner.fields))
    ensures HasReference(v) <==> AnyFieldReference(v.inner.fields)
  {}

  /** Whatever the input form is accepted as, it is a tree the constructors can build. */
  lemma {:induction false} AcceptedInputIsConstructible(lib: Library, input: Input)
    requires IntoValue(lib, input).Ok?
    ensures Constructible(lib, IntoValue(lib, input).value)
    decreases input, 1
  {
    match input
    case ListInput(inputs) =>
      AcceptedListIsConstructible(lib, inputs);
      ListFailsExactly(lib, IntoValues(lib, inputs).value);
    case StructureInput(inputs) =>
      AcceptedFieldsAreConstructible(lib, inputs);
      StructureFailsExactly(lib, IntoFields(lib, inputs).value);
    case _ =>
  }

  lemma {:induction false} AcceptedListIsConstructible(lib: Library, inputs: seq<Input>)
    requires IntoValues(lib, inputs).Ok?
    ensures var values := IntoValues(lib, inputs).value;
            forall i :: 0 <= i < |values| ==> Constructible(lib, values[i])
    decreases inputs, 0
  {
    if inputs != [] {
      AcceptedInputIsConstructible(lib, inputs[0]);
      AcceptedListIsConstructible(lib, inputs[1..]);
    }
  }

  lemma {:induction false} AcceptedFieldsAreConstructible(lib: Library, inputs: seq<FieldInput>)
    requires IntoFields(lib, inputs).Ok?
    ensures var fields := IntoFields(lib, inputs).value;
            forall i :: 0 <= i < |fields| ==> FieldIsConstructible(lib, fields[i])
    decreases inputs, 0
  {
    if inputs != [] {
      AcceptedInputIsConstructible(lib, inputs[0].value);
      AcceptedFieldsAreConstructible(lib, inputs[1..]);
    }
  }
}
