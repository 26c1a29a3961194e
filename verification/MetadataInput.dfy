/** What the CLI accepts as metadata, what it then holds, and what it writes (crates/postproject-cli/src/main.rs). */
module MetadataInput {
  import opened Wrappers
  import opened Machine
  import opened Utf8
  import opened Hex
  import opened IntegerText
  import opened Identity
  import opened Scalars
  import opened Metadata
  import opened MetadataView

  // ---- What an input says ----

  ghost predicate IsDecimal(text: string, scale: U32, d: DecimalValue) {
    exists c: int :: Spells(text, c, true) && SameDecimal(c, scale, d.coefficient, d.scale)
  }

  /** The ratio itself, except that a zero over 2^63 or more is read as minus one. */
  predicate IsRatio(numerator: I64, denominator: U64, r: RationalValue) {
    if numerator == 0 && denominator >= 0x8000_0000_0000_0000 then
      r == Rational(-1, 1)
    else
      denominator > 0 && r.numerator * denominator == numerator * r.denominator
  }

  ghost predicate IsTarget(kind: TargetKind, id: string, target: ObjectRef) {
    && SpellsUuid(id, target.id)
    && (kind.ProductionTarget? <==> target.Production?)
    && (kind.AssetTarget? <==> target.Asset?)
    && (kind.RepresentationTarget? <==> target.Representation?)
    && (kind.ResourceTarget? <==> target.Resource?)
    && (kind.ActivityTarget? <==> target.Activity?)
  }

  /** The value holds, at every node, what the input says there. */
  ghost predicate Holds(input: Input, v: Value)
    decreases input
  {
    match input
    case TextInput(text) => v.inner == Text(text)
    case LangTextInput(text, language) => v.inner == LangText(text, language)
    case SignedInput(i) => v.inner == Signed(i)
    case UnsignedInput(u) => v.inner == Unsigned(u)
    case DecimalInput(text, scale) => v.inner.DecimalNumber? && IsDecimal(text, scale, v.inner.decimal)
    case BooleanInput(b) => v.inner == Boolean(b)
    case TimestampInput(t) => v.inner == Timestamp(t)
    case UriInput(uri) => v.inner == Uri(uri)
    case BytesInput(hex) => v.inner.Bytes? && Lower(hex) == HexEncode(v.inner.bytes)
    case RationalInput(n, d) => v.inner.RationalNumber? && IsRatio(n, d, v.inner.rational)
    case ListInput(inputs) =>
      && v.inner.List?
      && |v.inner.values| == |inputs|
      && forall i :: 0 <= i < |inputs| ==> Holds(inputs[i], v.inner.values[i])
    case StructureInput(inputs) =>
      && v.inner.Structure?
      && |v.inner.fields| == |inputs|
      && forall i :: 0 <= i < |inputs| ==>
           v.inner.fields[i].name == inputs[i].name && Holds(inputs[i].value, v.inner.fields[i].value)
    case ReferenceInput(kind, id) => v.inner.Reference? && IsTarget(kind, id, v.inner.target)
  }

  // ---- Which inputs are accepted ----

  ghost predicate FitsText(text: string, maximum: nat) {
    |Encode(text)| <= maximum && '\0' !in text
  }

  ghost predicate IsLanguageTag(tag: string) {
    && 1 <= |tag| <= 64
    && (forall c :: c in tag ==> 'a' <= c <= 'z' || 'A' <= c <= 'Z' || '0' <= c <= '9' || c == '-')
    && tag[0] != '-' && tag[|tag| - 1] != '-'
    && forall i :: 0 <= i < |tag| - 1 ==> !(tag[i] == '-' && tag[i + 1] == '-')
  }

  ghost predicate IsName(lib: Library, name: string) {
    1 <= |Encode(name)| <= 255 && forall c :: c in name ==> !lib.isWhitespace(c) && !lib.isControl(c)
  }

  ghost predicate FitsDecimal(text: string, scale: U32) {
    exists c: I128, c2: int, t: nat :: Spells(text, c, true) && SameDecimal(c, scale, c2, t) && t <= 1024
  }

  /** An accepted input obeys the limit of its kind, at every node. */
  ghost predicate Acceptable(lib: Library, input: Input)
    decreases input
  {
    match input
    case TextInput(text) => FitsText(text, 1_048_576)
    case LangTextInput(text, language) => FitsText(text, 1_048_576) && IsLanguageTag(language)
    case DecimalInput(text, scale) => FitsDecimal(text, scale)
    case UriInput(uri) => FitsText(uri, 4096) && lib.isUrl(uri)
    case BytesInput(hex) => exists bytes: seq<U8> :: Lower(hex) == HexEncode(bytes) && |bytes| <= 15_728_640
    case RationalInput(_, d) => d > 0
    case ListInput(inputs) =>
      && |inputs| <= 4096
      && (forall i :: 0 <= i < |inputs| ==> Acceptable(lib, inputs[i]))
      && InputDepth(input) <= 32
      && InputSize(input) <= 15_728_640
    case StructureInput(inputs) =>
      && |inputs| <= 4096
      && (forall i :: 0 <= i < |inputs| ==> IsName(lib, inputs[i].name) && Acceptable(lib, inputs[i].value))
      && InputDepth(input) <= 32
      && InputSize(input) <= 15_728_640
    case ReferenceInput(_, id) => exists uuid: Uuid :: SpellsUuid(id, uuid)
    case _ => true
  }

  /** The levels of nesting. */
  ghost function InputDepth(input: Input): nat
    decreases input, 1
  {
    match input
    case ListInput(inputs) => 1 + InputsDepth(inputs)
    case StructureInput(inputs) => 1 + FieldInputsDepth(inputs)
    case _ => 1
  }

  ghost function InputsDepth(inputs: seq<Input>): nat
    decreases inputs, 0
  {
    if inputs == [] then
      0
    else
      var front, last := InputsDepth(inputs[..|inputs| - 1]), InputDepth(inputs[|inputs| - 1]);
      if last > front then last else front
  }

  ghost function FieldInputsDepth(inputs: seq<FieldInput>): nat
    decreases inputs, 0
  {
    if inputs == [] then
      0
    else
      var front, last := FieldInputsDepth(inputs[..|inputs| - 1]), InputDepth(inputs[|inputs| - 1].value);
      if last > front then last else front
  }

  /** The bytes counted against the limit of a tree. */
  ghost function InputSize(input: Input): nat
    decreases input, 1
  {
    match input
    case TextInput(text) => |Encode(text)|
    case LangTextInput(text, language) => |Encode(text)| + |Encode(language)|
    case SignedInput(_) => 8
    case UnsignedInput(_) => 8
    case DecimalInput(_, _) => 20
    case BooleanInput(_) => 1
    case TimestampInput(_) => 8
    case UriInput(uri) => |Encode(uri)|
    case BytesInput(hex) => |hex| / 2
    case RationalInput(_, _) => 16
    case ListInput(inputs) => InputsSize(inputs)
    case StructureInput(inputs) => FieldInputsSize(inputs)
    case ReferenceInput(_, _) => 17
  }

  ghost function InputsSize(inputs: seq<Input>): nat
    decreases inputs, 0
  {
    if inputs == [] then 0 else InputsSize(inputs[..|inputs| - 1]) + InputSize(inputs[|inputs| - 1])
  }

  ghost function FieldInputsSize(inputs: seq<FieldInput>): nat
    decreases inputs, 0
  {
    if inputs == [] then
      0
    else
      var last := inputs[|inputs| - 1];
      FieldInputsSize(inputs[..|inputs| - 1]) + |Encode(last.name)| + InputSize(last.value)
  }

  // ---- Leaves ----

  ghost predicate Measured(input: Input, v: Value) {
    InputDepth(input) == Depth(v) && InputSize(input) == Payload(v)
  }

  ghost predicate Understood(lib: Library, input: Input) {
    && (IntoValue(lib, input).Ok? <==> Acceptable(lib, input))
    && (IntoValue(lib, input).Ok? ==>
          Holds(input, IntoValue(lib, input).value) && Measured(input, IntoValue(lib, input).value))
  }

  predicate HasPair(tag: string) {
    exists i :: 0 <= i < |tag| - 1 && tag[i] == '-' && tag[i + 1] == '-'
  }

  lemma PairSplits(tag: string)
    requires tag != ""
    ensures HasPair(tag) <==> (|tag| > 1 && tag[0] == tag[1] == '-') || HasPair(tag[1..])
  {
    if i :| 0 <= i < |tag| - 1 && tag[i] == '-' && tag[i + 1] == '-' {
      assert i > 0 ==> tag[1..][i - 1] == '-' && tag[1..][i - 1 + 1] == '-';
    }
    if i :| 0 <= i < |tag[1..]| - 1 && tag[1..][i] == '-' && tag[1..][i + 1] == '-' {
      assert tag[i + 1] == '-' && tag[i + 1 + 1] == '-';
    }
  }

  /** An empty piece comes from a separator at an end or from two in a row. */
  lemma {:induction false} EmptyPieces(tag: string)
    ensures Split(tag, '-')[0] == "" <==> tag == "" || tag[0] == '-'
    ensures "" in Split(tag, '-')[1..] <==> (tag != "" && tag[|tag| - 1] == '-') || HasPair(tag)
  {
    hide HasPair;
    if tag != "" {
      EmptyPieces(tag[1..]);
      PairSplits(tag);
      var rest := Split(tag[1..], '-');
      assert rest == [rest[0]] + rest[1..];
      if tag[0] == '-' {
        assert Split(tag, '-')[1..] == rest;
      } else {
        assert Split(tag, '-')[1..] == rest[1..];
      }
    } else {
      assert !HasPair("") by { NoPair(); }
    }
  }

  lemma NoPair()
    ensures !HasPair("")
  {}

  lemma {:induction false} AsciiLength(s: string)
    requires forall c :: c in s ==> (c as int) < 0x80
    ensures |Encode(s)| == |s|
  {
    if s != "" {
      var front := s[..|s| - 1];
      assert forall c :: c in front ==> c in s;
      AsciiLength(front);
      assert s[|s| - 1] in s;
    }
  }

  lemma LanguageTagIsExact(tag: string)
    ensures LanguageTagIsValid(tag) <==> IsLanguageTag(tag)
  {
    hide Encode;
    if tag != "" && forall c :: c in tag ==> IsAsciiAlphanumeric(c) || c == '-' {
      AsciiLength(tag);
      EmptyPieces(tag);
      var pieces := Split(tag, '-');
      assert pieces == [pieces[0]] + pieces[1..];
    }
  }

  lemma TextIsUnderstood(lib: Library, input: Input)
    requires input.TextInput? || input.LangTextInput? || input.UriInput?
    ensures Understood(lib, input)
  {
    hide Encode, LanguageTagIsValid, IsLanguageTag;
    if input.LangTextInput? {
      LanguageTagIsExact(input.language);
      var a, b := Utf8Length(input.langText), Utf8Length(input.language);
      SumOfPair([], a, b);
      assert [] + [a, b] == [a, b];
      TagIsShort(input.language);
    }
  }

  lemma TagIsShort(tag: string)
    ensures IsLanguageTag(tag) ==> |Encode(tag)| <= 64
  {
    if IsLanguageTag(tag) {
      AsciiLength(tag);
    }
  }

  /** A text spells at most one number, and it is the one that is parsed. */
  lemma SpelledIsTheParsed(text: string, c: I128)
    ensures Spells(text, c, true) <==> ParseInt(text, I128_MIN, I128_MAX) == Ok(c)
  {
    hide ParseInt, Spells;
    ParseIsExact(text, I128_MIN, I128_MAX, c);
  }

  lemma DecimalIsRead(lib: Library, text: string, scale: U32, c: I128)
    requires ParseInt(text, I128_MIN, I128_MAX) == Ok(c)
    ensures var input := DecimalInput(text, scale);
      && (IntoValue(lib, input).Ok? <==> NewDecimal(c, scale).Ok?)
      && (NewDecimal(c, scale).Ok? ==> IntoValue(lib, input) == Ok(NewDecimalNumber(NewDecimal(c, scale).value)))
  {
    hide ParseInt, NewDecimal;
  }

  lemma DecimalFits(text: string, scale: U32, c: I128)
    requires ParseInt(text, I128_MIN, I128_MAX) == Ok(c)
    ensures FitsDecimal(text, scale) <==> NewDecimal(c, scale).Ok?
    ensures NewDecimal(c, scale).Ok? ==> IsDecimal(text, scale, NewDecimal(c, scale).value)
  {
    hide ParseInt, NewDecimal, Spells, SameDecimal;
    SpelledIsTheParsed(text, c);
    DecimalFailsExactly(c, scale);
    if NewDecimal(c, scale).Ok? {
      DecimalKeepsValue(c, scale);
    }
    forall other: I128 | Spells(text, other, true)
      ensures other == c
    {
      SpelledIsTheParsed(text, other);
    }
  }

  lemma DecimalIsUnderstood(lib: Library, input: Input)
    requires input.DecimalInput?
    ensures Understood(lib, input)
  {
    hide ParseInt, NewDecimal, FitsDecimal, IsDecimal;
    var text, scale := input.coefficient, input.scale;
    match ParseInt(text, I128_MIN, I128_MAX)
    case Ok(x) =>
      ParsedIsInRange(text, I128_MIN, I128_MAX);
      DecimalIsRead(lib, text, scale, x);
      DecimalFits(text, scale, x);
      hide IntoValue;
    case Err(_) =>
      NothingFits(text, scale);
  }

  lemma NothingFits(text: string, scale: U32)
    requires ParseInt(text, I128_MIN, I128_MAX).Err?
    ensures !FitsDecimal(text, scale)
  {
    hide ParseInt, Spells, SameDecimal;
    forall c: I128
      ensures !Spells(text, c, true)
    {
      SpelledIsTheParsed(text, c);
    }
  }

  lemma DecimalKeepsValue(c: I128, scale: U32)
    requires NewDecimal(c, scale).Ok?
    ensures var d := NewDecimal(c, scale).value; SameDecimal(c, scale, d.coefficient, d.scale)
  {
    hide Strip, SameDecimal;
    StripKeepsValue(c, scale);
  }

  lemma BytesAreUnderstood(lib: Library, input: Input)
    requires input.BytesInput?
    ensures Understood(lib, input)
  {
    hide HexEncode, HexDecode, Lower;
    if HexDecode(input.hex).Some? {
      HexReadsAnyCase(input.hex, HexDecode(input.hex).value);
    }
    if bytes: seq<U8> :| Lower(input.hex) == HexEncode(bytes) && |bytes| <= 15_728_640 {
      HexReadsAnyCase(input.hex, bytes);
    }
  }

  lemma RationalIsUnderstood(lib: Library, input: Input)
    requires input.RationalInput?
    ensures Understood(lib, input)
  {
    hide NewRational;
    var n, d := input.numerator, input.denominator;
    ZeroDenominatorIsRefused(n);
    if d > 0 {
      RationalKeepsValueExactly(n, d);
      if LosesZero(n, d) {
        LostZeroBecomesMinusOne(d);
      }
    }
  }

  lemma ZeroDenominatorIsRefused(n: I64)
    ensures NewRational(n, 0).Err?
  {}

  lemma ReferenceIsUnderstood(lib: Library, input: Input)
    requires input.ReferenceInput?
    ensures Understood(lib, input)
  {
    hide ParseUuid, SpellsUuid;
    if ParseUuid(input.targetId).Some? {
      UuidReadsExactly(input.targetId, ParseUuid(input.targetId).value);
    }
    if uuid: Uuid :| SpellsUuid(input.targetId, uuid) {
      UuidReadsExactly(input.targetId, uuid);
    }
  }

  // ---- Composites ----

  lemma {:induction false} EachIsRead(lib: Library, inputs: seq<Input>)
    ensures IntoValues(lib, inputs).Ok? <==> forall i :: 0 <= i < |inputs| ==> IntoValue(lib, inputs[i]).Ok?
    ensures IntoValues(lib, inputs).Ok? ==>
      && |IntoValues(lib, inputs).value| == |inputs|
      && forall i :: 0 <= i < |inputs| ==> IntoValue(lib, inputs[i]) == Ok(IntoValues(lib, inputs).value[i])
  {
    hide IntoValue;
    if inputs != [] {
      EachIsRead(lib, inputs[1..]);
      assert forall i :: 0 < i < |inputs| ==> inputs[i] == inputs[1..][i - 1];
      assert forall i :: 0 <= i < |inputs| - 1 ==> inputs[1..][i] == inputs[i + 1];
    }
  }

  predicate FieldIsRead(lib: Library, input: FieldInput) {
    IntoValue(lib, input.value).Ok? && PropertyIdIsValid(lib, input.name)
  }

  lemma {:induction false} EachFieldIsRead(lib: Library, inputs: seq<FieldInput>)
    ensures IntoFields(lib, inputs).Ok? <==> forall i :: 0 <= i < |inputs| ==> FieldIsRead(lib, inputs[i])
    ensures IntoFields(lib, inputs).Ok? ==>
      && |IntoFields(lib, inputs).value| == |inputs|
      && forall i :: 0 <= i < |inputs| ==>
           && IntoFields(lib, inputs).value[i].name == inputs[i].name
           && IntoValue(lib, inputs[i].value) == Ok(IntoFields(lib, inputs).value[i].value)
  {
    hide IntoValue, PropertyIdIsValid;
    if inputs != [] {
      EachFieldIsRead(lib, inputs[1..]);
      assert forall i :: 0 < i < |inputs| ==> inputs[i] == inputs[1..][i - 1];
      assert forall i :: 0 <= i < |inputs| - 1 ==> inputs[1..][i] == inputs[i + 1];
    }
  }

  lemma {:induction false} ListMeasures(inputs: seq<Input>, values: seq<Value>)
    requires |inputs| == |values| && forall i :: 0 <= i < |inputs| ==> Measured(inputs[i], values[i])
    ensures InputsDepth(inputs) == ListDepth(values) && InputsSize(inputs) == ListPayload(values)
  {
    hide InputDepth, InputSize, Depth, Payload;
    if inputs != [] {
      var n := |inputs| - 1;
      ListMeasures(inputs[..n], values[..n]);
      assert Measured(inputs[n], values[n]);
    }
  }

  lemma {:induction false} FieldMeasures(inputs: seq<FieldInput>, fields: seq<Field>)
    requires |inputs| == |fields|
    requires forall i :: 0 <= i < |inputs| ==> Measured(inputs[i].value, fields[i].value)
    requires forall i :: 0 <= i < |inputs| ==> inputs[i].name == fields[i].name
    ensures FieldInputsDepth(inputs) == FieldsDepth(fields) && FieldInputsSize(inputs) == FieldsPayload(fields)
  {
    hide InputDepth, InputSize, Depth, Payload, Encode;
    if inputs != [] {
      var n := |inputs| - 1;
      FieldMeasures(inputs[..n], fields[..n]);
      assert Measured(inputs[n].value, fields[n].value);
    }
  }

  lemma ListUnfolds(lib: Library, inputs: seq<Input>)
    ensures var input, values := ListInput(inputs), IntoValues(lib, inputs);
      && IntoValue(lib, input).Ok? == (values.Ok? && NewList(values.value).Ok?)
      && (IntoValue(lib, input).Ok? ==> IntoValue(lib, input) == NewList(values.value))
      && InputDepth(input) == 1 + InputsDepth(inputs)
      && InputSize(input) == InputsSize(inputs)
  {
    hide NewList, IntoValues, InputsDepth, InputsSize;
  }

  lemma NewListKeepsValues(values: seq<Value>)
    requires NewList(values).Ok?
    ensures var v := NewList(values).value;
      v.inner == List(values) && Depth(v) == 1 + ListDepth(values) && Payload(v) == ListPayload(values)
  {
    hide ListDepth, ListPayload;
  }

  lemma ListIsAccepted(lib: Library, inputs: seq<Input>)
    requires forall i :: 0 <= i < |inputs| ==> Understood(lib, inputs[i])
    ensures IntoValue(lib, ListInput(inputs)).Ok? <==> Acceptable(lib, ListInput(inputs))
    ensures IntoValue(lib, ListInput(inputs)).Ok? ==>
      Measured(ListInput(inputs), IntoValue(lib, ListInput(inputs)).value)
  {
    hide IntoValue, IntoValues, Holds, InputsDepth, InputsSize, ListDepth, ListPayload, NewList, Constructible;
    hide InputDepth, InputSize, Depth, Payload;
    EachIsRead(lib, inputs);
    ListUnfolds(lib, inputs);
    assert forall i :: 0 <= i < |inputs| ==> (IntoValue(lib, inputs[i]).Ok? <==> Acceptable(lib, inputs[i]));
    if IntoValues(lib, inputs).Ok? {
      var values := IntoValues(lib, inputs).value;
      AcceptedListIsConstructible(lib, inputs);
      ListFailsExactly(lib, values);
      forall i | 0 <= i < |inputs|
        ensures Measured(inputs[i], values[i])
      {
        assert IntoValue(lib, inputs[i]) == Ok(values[i]);
      }
      ListMeasures(inputs, values);
      if NewList(values).Ok? {
        NewListKeepsValues(values);
      }
    }
  }

  lemma ListIsHeld(lib: Library, inputs: seq<Input>)
    requires forall i :: 0 <= i < |inputs| ==> Understood(lib, inputs[i])
    requires IntoValue(lib, ListInput(inputs)).Ok?
    ensures Holds(ListInput(inputs), IntoValue(lib, ListInput(inputs)).value)
  {
    hide IntoValue, IntoValues, NewList, Acceptable, Measured;
    EachIsRead(lib, inputs);
    ListUnfolds(lib, inputs);
    var values := IntoValues(lib, inputs).value;
    NewListKeepsValues(values);
    forall i | 0 <= i < |inputs|
      ensures Holds(inputs[i], values[i])
    {
      assert IntoValue(lib, inputs[i]) == Ok(values[i]);
    }
  }

  lemma StructureUnfolds(lib: Library, inputs: seq<FieldInput>)
    ensures var input, fields := StructureInput(inputs), IntoFields(lib, inputs);
      && IntoValue(lib, input).Ok? == (fields.Ok? && NewStructure(fields.value).Ok?)
      && (IntoValue(lib, input).Ok? ==> IntoValue(lib, input) == NewStructure(fields.value))
      && InputDepth(input) == 1 + FieldInputsDepth(inputs)
      && InputSize(input) == FieldInputsSize(inputs)
  {
    hide NewStructure, IntoFields, FieldInputsDepth, FieldInputsSize;
  }

  lemma NewStructureKeepsFields(fields: seq<Field>)
    requires NewStructure(fields).Ok?
    ensures var v := NewStructure(fields).value;
      v.inner == Structure(fields) && Depth(v) == 1 + FieldsDepth(fields) && Payload(v) == FieldsPayload(fields)
  {
    hide FieldsDepth, FieldsPayload;
  }

  lemma NameIsExact(lib: Library, name: string)
    ensures PropertyIdIsValid(lib, name) <==> IsName(lib, name)
  {
    hide Encode;
  }

  lemma StructureIsAccepted(lib: Library, inputs: seq<FieldInput>)
    requires forall i :: 0 <= i < |inputs| ==> Understood(lib, inputs[i].value)
    ensures IntoValue(lib, StructureInput(inputs)).Ok? <==> Acceptable(lib, StructureInput(inputs))
    ensures IntoValue(lib, StructureInput(inputs)).Ok? ==>
      Measured(StructureInput(inputs), IntoValue(lib, StructureInput(inputs)).value)
  {
    hide IntoValue, IntoFields, Holds, FieldInputsDepth, FieldInputsSize, FieldsDepth, FieldsPayload, NewStructure;
    hide Constructible, InputDepth, InputSize, Depth, Payload, PropertyIdIsValid, IsName;
    EachFieldIsRead(lib, inputs);
    StructureUnfolds(lib, inputs);
    forall i | 0 <= i < |inputs|
      ensures FieldIsRead(lib, inputs[i]) <==> IsName(lib, inputs[i].name) && Acceptable(lib, inputs[i].value)
    {
      NameIsExact(lib, inputs[i].name);
    }
    if IntoFields(lib, inputs).Ok? {
      var fields := IntoFields(lib, inputs).value;
      AcceptedFieldsAreConstructible(lib, inputs);
      StructureFailsExactly(lib, fields);
      forall i | 0 <= i < |inputs|
        ensures Measured(inputs[i].value, fields[i].value)
      {
        assert IntoValue(lib, inputs[i].value) == Ok(fields[i].value);
      }
      FieldMeasures(inputs, fields);
      if NewStructure(fields).Ok? {
        NewStructureKeepsFields(fields);
      }
    }
  }

  lemma StructureIsHeld(lib: Library, inputs: seq<FieldInput>)
    requires forall i :: 0 <= i < |inputs| ==> Understood(lib, inputs[i].value)
    requires IntoValue(lib, StructureInput(inputs)).Ok?
    ensures Holds(StructureInput(inputs), IntoValue(lib, StructureInput(inputs)).value)
  {
    hide IntoValue, IntoFields, NewStructure, Acceptable, Measured;
    EachFieldIsRead(lib, inputs);
    StructureUnfolds(lib, inputs);
    var fields := IntoFields(lib, inputs).value;
    NewStructureKeepsFields(fields);
    forall i | 0 <= i < |inputs|
      ensures Holds(inputs[i].value, fields[i].value)
    {
      assert IntoValue(lib, inputs[i].value) == Ok(fields[i].value);
    }
  }

  /** What is accepted is exactly what obeys the limits, and then the value holds what the input says. */
  lemma {:induction false} InputIsUnderstood(lib: Library, input: Input)
    ensures IntoValue(lib, input).Ok? <==> Acceptable(lib, input)
    ensures IntoValue(lib, input).Ok? ==> Holds(input, IntoValue(lib, input).value)
    ensures Understood(lib, input)
    decreases input
  {
    match input
    case TextInput(_) => TextIsUnderstood(lib, input);
    case LangTextInput(_, _) => TextIsUnderstood(lib, input);
    case UriInput(_) => TextIsUnderstood(lib, input);
    case DecimalInput(_, _) => DecimalIsUnderstood(lib, input);
    case BytesInput(_) => BytesAreUnderstood(lib, input);
    case RationalInput(_, _) => RationalIsUnderstood(lib, input);
    case ReferenceInput(_, _) => ReferenceIsUnderstood(lib, input);
    case ListInput(inputs) =>
      forall i | 0 <= i < |inputs|
        ensures Understood(lib, inputs[i])
      {
        InputIsUnderstood(lib, inputs[i]);
      }
      CompositeIsUnderstood(lib, input);
    case StructureInput(inputs) =>
      forall i | 0 <= i < |inputs|
        ensures Understood(lib, inputs[i].value)
      {
        InputIsUnderstood(lib, inputs[i].value);
      }
      CompositeIsUnderstood(lib, input);
    case _ =>
      NumberIsUnderstood(lib, input);
  }

  lemma NumberIsUnderstood(lib: Library, input: Input)
    requires input.SignedInput? || input.UnsignedInput? || input.BooleanInput? || input.TimestampInput?
    ensures Understood(lib, input)
  {}

  lemma CompositeIsUnderstood(lib: Library, input: Input)
    requires input.ListInput? || input.StructureInput?
    requires input.ListInput? ==> forall i :: 0 <= i < |input.values| ==> Understood(lib, input.values[i])
    requires input.StructureInput? ==> forall i :: 0 <= i < |input.fields| ==> Understood(lib, input.fields[i].value)
    ensures Understood(lib, input)
  {
    hide IntoValue, Acceptable, Holds, Measured;
    if input.ListInput? {
      assert input == ListInput(input.values);
      ListIsAccepted(lib, input.values);
      if IntoValue(lib, input).Ok? {
        ListIsHeld(lib, input.values);
      }
    } else {
      assert input == StructureInput(input.fields);
      StructureIsAccepted(lib, input.fields);
      if IntoValue(lib, input).Ok? {
        StructureIsHeld(lib, input.fields);
      }
    }
  }

  // ---- Writing what was accepted ----

  /** The same input up to the spelling of decimals, rationals and bytes. */
  ghost predicate SameInput(a: Input, b: Input)
    decreases a
  {
    match a
    case DecimalInput(text, scale) =>
      && b.DecimalInput?
      && exists d :: IsDecimal(text, scale, d) && IsDecimal(b.coefficient, b.scale, d)
    case BytesInput(hex) => b.BytesInput? && Lower(hex) == Lower(b.hex)
    case RationalInput(n, d) =>
      b.RationalInput? && exists r :: IsRatio(n, d, r) && IsRatio(b.numerator, b.denominator, r)
    case ListInput(inputs) =>
      && b.ListInput?
      && |b.values| == |inputs|
      && forall i :: 0 <= i < |inputs| ==> SameInput(inputs[i], b.values[i])
    case StructureInput(inputs) =>
      && b.StructureInput?
      && |b.fields| == |inputs|
      && forall i :: 0 <= i < |inputs| ==>
           b.fields[i].name == inputs[i].name && SameInput(inputs[i].value, b.fields[i].value)
    case ReferenceInput(kind, id) =>
      b.ReferenceInput? && b.targetKind == kind && exists uuid :: SpellsUuid(id, uuid) && SpellsUuid(b.targetId, uuid)
    case _ => a == b
  }

  /** The JSON object has the kind and the members of the input. */
  ghost predicate Shows(view: View, input: Input)
    decreases view
  {
    match view
    case TextView(text) => input == TextInput(text)
    case LangTextView(text, language) => input == LangTextInput(text, language)
    case SignedView(i) => input == SignedInput(i)
    case UnsignedView(u) => input == UnsignedInput(u)
    case DecimalView(coefficient, scale) => input == DecimalInput(coefficient, scale)
    case BooleanView(b) => input == BooleanInput(b)
    case TimestampView(t) => input == TimestampInput(t)
    case UriView(uri) => input == UriInput(uri)
    case BytesView(hex) => input == BytesInput(hex)
    case RationalView(n, d) => input == RationalInput(n, d)
    case ListView(views) =>
      && input.ListInput?
      && |input.values| == |views|
      && forall i :: 0 <= i < |views| ==> Shows(views[i], input.values[i])
    case StructureView(views) =>
      && input.StructureInput?
      && |input.fields| == |views|
      && forall i :: 0 <= i < |views| ==>
           views[i].name == input.fields[i].name && Shows(views[i].value, input.fields[i].value)
    case ReferenceView(target) =>
      && input.ReferenceInput?
      && "target_kind" in target && "target_id" in target
      && input.targetId == target["target_id"]
      && (input.targetKind.ProductionTarget? <==> target["target_kind"] == "production")
      && (input.targetKind.AssetTarget? <==> target["target_kind"] == "asset")
      && (input.targetKind.RepresentationTarget? <==> target["target_kind"] == "representation")
      && (input.targetKind.ResourceTarget? <==> target["target_kind"] == "resource")
      && (input.targetKind.ActivityTarget? <==> target["target_kind"] == "activity")
  }

  /** Two inputs that one value holds are the same input. */
  lemma {:induction false} HeldInputsAreTheSame(a: Input, b: Input, v: Value)
    requires Holds(a, v) && Holds(b, v)
    ensures SameInput(a, b)
    decreases a
  {
    hide IsDecimal, IsRatio, SpellsUuid, Lower, HexEncode;
    match a
    case ListInput(inputs) =>
      forall i | 0 <= i < |inputs|
        ensures SameInput(inputs[i], b.values[i])
      {
        HeldInputsAreTheSame(inputs[i], b.values[i], v.inner.values[i]);
      }
    case StructureInput(inputs) =>
      forall i | 0 <= i < |inputs|
        ensures SameInput(inputs[i].value, b.fields[i].value)
      {
        HeldInputsAreTheSame(inputs[i].value, b.fields[i].value, v.inner.fields[i].value);
      }
    case ReferenceInput(kind, id) =>
      assert SpellsUuid(id, v.inner.target.id) && SpellsUuid(b.targetId, v.inner.target.id);
    case _ =>
  }

  /** Whatever JSON is read back shows the input that was read. */
  lemma {:induction false} ReadBackShows(view: View)
    requires ReadBack(view).Ok?
    ensures Shows(view, ReadBack(view).value)
    decreases view, 1
  {
    match view
    case ListView(views) => EachIsShown(views);
    case StructureView(views) => EachFieldIsShown(views);
    case _ =>
  }

  lemma {:induction false} EachIsShown(views: seq<View>)
    requires ReadBackAll(views).Ok?
    ensures var inputs := ReadBackAll(views).value;
      |inputs| == |views| && forall i :: 0 <= i < |views| ==> Shows(views[i], inputs[i])
    decreases views, 0
  {
    if views != [] {
      ReadBackShows(views[0]);
      EachIsShown(views[1..]);
      assert forall i :: 0 < i < |views| ==> views[i] == views[1..][i - 1];
    }
  }

  lemma {:induction false} EachFieldIsShown(views: seq<FieldView>)
    requires ReadBackFields(views).Ok?
    ensures var inputs := ReadBackFields(views).value;
      && |inputs| == |views|
      && forall i :: 0 <= i < |views| ==>
           views[i].name == inputs[i].name && Shows(views[i].value, inputs[i].value)
    decreases views, 0
  {
    if views != [] {
      ReadBackShows(views[0].value);
      EachFieldIsShown(views[1..]);
      assert forall i :: 0 < i < |views| ==> views[i] == views[1..][i - 1];
    }
  }

  /** A reference occurs in the input. */
  ghost predicate Mentions(input: Input)
    decreases input
  {
    match input
    case ListInput(inputs) => exists i :: 0 <= i < |inputs| && Mentions(inputs[i])
    case StructureInput(inputs) => exists i :: 0 <= i < |inputs| && Mentions(inputs[i].value)
    case ReferenceInput(_, _) => true
    case _ => false
  }

  lemma {:induction false} ReferencesAreHeld(input: Input, v: Value)
    requires Holds(input, v)
    ensures Mentions(input) <==> HasReference(v)
    decreases input
  {
    match input
    case ListInput(inputs) =>
      forall i | 0 <= i < |inputs|
        ensures Mentions(inputs[i]) <==> HasReference(v.inner.values[i])
      {
        ReferencesAreHeld(inputs[i], v.inner.values[i]);
      }
    case StructureInput(inputs) =>
      forall i | 0 <= i < |inputs|
        ensures Mentions(inputs[i].value) <==> HasReference(v.inner.fields[i].value)
      {
        ReferencesAreHeld(inputs[i].value, v.inner.fields[i].value);
      }
    case _ =>
  }

  /**
   * Every accepted input without a reference is written as JSON that shows the same input, up to equal
   * numbers and the letter case of bytes, and that reads back as the same value. With a reference the JSON
   * is not read at all.
   */
  lemma InputRoundTrip(lib: Library, input: Input)
    requires IntoValue(lib, input).Ok?
    ensures var view := ValueView(IntoValue(lib, input).value);
      if Mentions(input) then
        ReadBack(view).Err?
      else
        && ReadBack(view).Ok?
        && Shows(view, ReadBack(view).value)
        && SameInput(input, ReadBack(view).value)
        && IntoValue(lib, ReadBack(view).value) == IntoValue(lib, input)
  {
    hide IntoValue, ValueView, ReadBack, Acceptable, Mentions, HasReference, Holds, Constructible;
    var v := IntoValue(lib, input).value;
    InputIsUnderstood(lib, input);
    AcceptedInputIsConstructible(lib, input);
    ViewRoundTrip(lib, v);
    ReferencesAreHeld(input, v);
    if ReadBack(ValueView(v)).Ok? {
      var back := ReadBack(ValueView(v)).value;
      ReadBackShows(ValueView(v));
      InputIsUnderstood(lib, back);
      HeldInputsAreTheSame(input, back, v);
    }
  }

  /** What is written for a reference names the kind and the identifier that were read, in other members. */
  lemma ReferencesAreWritten(input: Input, v: Value)
    requires input.ReferenceInput? && Holds(input, v)
    ensures ValueView(v).ReferenceView?
    ensures var target := ValueView(v).target;
      && target.Keys == {"kind", "id"}
      && SpellsUuid(input.targetId, v.inner.target.id) && target["id"] == PrintUuid(v.inner.target.id)
      && (input.targetKind.ProductionTarget? <==> target["kind"] == "production")
      && (input.targetKind.AssetTarget? <==> target["kind"] == "asset")
      && (input.targetKind.RepresentationTarget? <==> target["kind"] == "representation")
      && (input.targetKind.ResourceTarget? <==> target["kind"] == "resource")
      && (input.targetKind.ActivityTarget? <==> target["kind"] == "activity")
  {
    hide SpellsUuid, PrintUuid;
  }
}
