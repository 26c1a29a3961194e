/** Identities, object references and host bindings (crates/postproject-core/src/id.rs). */
module Identity {
  import opened Wrappers
  import opened Machine
  import opened Hex

  const NIL_UUID: seq<U8> := seq(16, _ => 0)

  type Uuid = bytes: seq<U8> | |bytes| == 16 witness NIL_UUID

  datatype ObjectRef =
    | Production(id: Uuid)
    | Asset(id: Uuid)
    | Representation(id: Uuid)
    | Resource(id: Uuid)
    | Activity(id: Uuid)
    | Job(id: Uuid)

  datatype BindingData = Binding(production: Uuid, target: ObjectRef) {
    predicate Valid() {
      target.Production? ==> target.id == production
    }
  }

  type HostObjectBinding = b: BindingData | b.Valid() witness Binding(NIL_UUID, Production(NIL_UUID))

  function NewBinding(production: Uuid, target: ObjectRef): Result<HostObjectBinding> {
    if target.Production? && target.id != production then
      Err(InvalidArgument)
    else
      Ok(Binding(production, target))
  }

  // ---- UUID text (section 4 of RFC 9562) ----

  /** The canonical text: lowercase, hyphenated 8-4-4-4-12. */
  function PrintUuid(id: Uuid): (text: string)
    ensures |text| == 36
  {
    HexEncode(id[..4]) + "-" + HexEncode(id[4..6]) + "-" + HexEncode(id[6..8]) + "-"
    + HexEncode(id[8..10]) + "-" + HexEncode(id[10..])
  }

  function ParseHyphenated(s: string): Option<Uuid>
    requires |s| == 36
  {
    if s[8] == '-' && s[13] == '-' && s[18] == '-' && s[23] == '-' then
      match (HexDecode(s[..8]), HexDecode(s[9..13]), HexDecode(s[14..18]),
             HexDecode(s[19..23]), HexDecode(s[24..]))
      case (Some(a), Some(b), Some(c), Some(d), Some(e)) => Some(a + b + c + d + e)
      case _ => None
    else
      None
  }

  /** The spellings the UUID library reads: simple, hyphenated, braced and URN, in either case. */
  function ParseUuid(s: string): Option<Uuid> {
    if |s| == 32 then
      HexDecode(s)
    else if |s| == 36 then
      ParseHyphenated(s)
    else if |s| == 38 && s[0] == '{' && s[37] == '}' then
      ParseHyphenated(s[1..37])
    else if |s| == 45 && s[..9] == "urn:uuid:" then
      ParseHyphenated(s[9..])
    else
      None
  }

  lemma UuidRoundTrip(id: Uuid)
    ensures ParseUuid(PrintUuid(id)) == Some(id)
  {
    hide HexEncode, HexDecode;
    var s := PrintUuid(id);
    HexRoundTrip(id[..4]);
    HexRoundTrip(id[4..6]);
    HexRoundTrip(id[6..8]);
    HexRoundTrip(id[8..10]);
    HexRoundTrip(id[10..]);
    assert s[..8] == HexEncode(id[..4]);
    assert s[9..13] == HexEncode(id[4..6]);
    assert s[14..18] == HexEncode(id[6..8]);
    assert s[19..23] == HexEncode(id[8..10]);
    assert s[24..] == HexEncode(id[10..]);
    assert id[..4] + id[4..6] + id[6..8] + id[8..10] + id[10..] == id;
  }

  /** A text is the identifier without hyphens, with them, or with them in braces or after the URN prefix. */
  ghost predicate SpellsUuid(s: string, id: Uuid) {
    || Lower(s) == HexEncode(id)
    || Lower(s) == PrintUuid(id)
    || exists h: string :: Lower(h) == PrintUuid(id) && (s == "{" + h + "}" || s == "urn:uuid:" + h)
  }

  lemma HyphenatedIsExact(s: string, id: Uuid)
    requires |s| == 36
    ensures ParseHyphenated(s) == Some(id) <==> Lower(s) == PrintUuid(id)
  {
    hide HexEncode, HexDecode;
    var l := Lower(s);
    HexReadsAnyCase(s[..8], id[..4]);
    HexReadsAnyCase(s[9..13], id[4..6]);
    HexReadsAnyCase(s[14..18], id[6..8]);
    HexReadsAnyCase(s[19..23], id[8..10]);
    HexReadsAnyCase(s[24..], id[10..]);
    LowerPieces(s);
    PrintedPieces(id);
    if l == PrintUuid(id) {
      HyphensStay(s);
      JoinedBytes(id);
    }
    if ParseHyphenated(s) == Some(id) {
      ParsedPieces(HexDecode(s[..8]).value, HexDecode(s[9..13]).value, HexDecode(s[14..18]).value,
                   HexDecode(s[19..23]).value, HexDecode(s[24..]).value, id);
      assert l == l[..8] + "-" + l[9..13] + "-" + l[14..18] + "-" + l[19..23] + "-" + l[24..] by { HyphensStay(s); }
    }
  }

  lemma JoinedBytes(id: Uuid)
    ensures id[..4] + id[4..6] + id[6..8] + id[8..10] + id[10..] == id
  {}

  lemma ParsedPieces(a: seq<U8>, b: seq<U8>, c: seq<U8>, d: seq<U8>, e: seq<U8>, id: Uuid)
    requires |a| == 4 && |b| == |c| == |d| == 2 && |e| == 6 && a + b + c + d + e == id
    ensures a == id[..4] && b == id[4..6] && c == id[6..8] && d == id[8..10] && e == id[10..]
  {}

  lemma PrintedPieces(id: Uuid)
    ensures var p := PrintUuid(id);
      && p[..8] == HexEncode(id[..4]) && p[9..13] == HexEncode(id[4..6]) && p[14..18] == HexEncode(id[6..8])
      && p[19..23] == HexEncode(id[8..10]) && p[24..] == HexEncode(id[10..])
      && p[8] == p[13] == p[18] == p[23] == '-'
  {
    hide HexEncode;
  }

  lemma LowerPieces(s: string)
    requires |s| == 36
    ensures var l := Lower(s);
      && |l| == 36
      && l[..8] == Lower(s[..8]) && l[9..13] == Lower(s[9..13]) && l[14..18] == Lower(s[14..18])
      && l[19..23] == Lower(s[19..23]) && l[24..] == Lower(s[24..])
  {}

  lemma HyphensStay(s: string)
    requires |s| == 36
    ensures forall i :: 0 <= i < 36 ==> (Lower(s)[i] == '-' <==> s[i] == '-')
  {}

  lemma {:induction false} HexOfPieces(a: seq<U8>, b: seq<U8>)
    ensures HexEncode(a + b) == HexEncode(a) + HexEncode(b)
  {
    if a == [] {
      assert a + b == b;
    } else {
      HexOfPieces(a[1..], b);
      assert (a + b)[1..] == a[1..] + b;
    }
  }

  /** The printed identifier is its 32 digits, with hyphens after the 8th, 12th, 16th and 20th. */
  lemma PrintedUuidShape(id: Uuid)
    ensures var p := PrintUuid(id);
      && |p| == 36
      && p[8] == p[13] == p[18] == p[23] == '-'
      && p[..8] + p[9..13] + p[14..18] + p[19..23] + p[24..] == HexEncode(id)
  {
    hide HexEncode;
    PrintedPieces(id);
    HexOfPieces(id[..4], id[4..6]);
    HexOfPieces(id[..4] + id[4..6], id[6..8]);
    HexOfPieces(id[..4] + id[4..6] + id[6..8], id[8..10]);
    HexOfPieces(id[..4] + id[4..6] + id[6..8] + id[8..10], id[10..]);
    JoinedBytes(id);
  }

  /** An identifier is read from exactly its four spellings, in any letter case. */
  lemma UuidReadsExactly(s: string, id: Uuid)
    ensures ParseUuid(s) == Some(id) <==> SpellsUuid(s, id)
  {
    hide HexEncode, HexDecode, ParseHyphenated, PrintUuid, Lower;
    LowerKeepsLength(s);
    if |s| == 32 {
      HexReadsAnyCase(s, id);
    } else if |s| == 36 {
      HyphenatedIsExact(s, id);
    }
    if h: string :| Lower(h) == PrintUuid(id) && (s == "{" + h + "}" || s == "urn:uuid:" + h) {
      LowerKeepsLength(h);
      HyphenatedIsExact(h, id);
      assert h == if s == "{" + h + "}" then s[1..37] else s[9..];
    }
    if ParseUuid(s) == Some(id) && |s| == 38 {
      HyphenatedIsExact(s[1..37], id);
      assert s == "{" + s[1..37] + "}";
    }
    if ParseUuid(s) == Some(id) && |s| == 45 {
      HyphenatedIsExact(s[9..], id);
      assert s == "urn:uuid:" + s[9..];
    }
  }

  lemma LowerKeepsLength(s: string)
    ensures |Lower(s)| == |s|
  {}

  lemma UuidTextHasNoSlash(id: Uuid)
    ensures '/' !in PrintUuid(id)
  {
    hide HexEncode;
    HexRoundTrip(id[..4]);
    HexRoundTrip(id[4..6]);
    HexRoundTrip(id[6..8]);
    HexRoundTrip(id[8..10]);
    HexRoundTrip(id[10..]);
  }

  /** `parse_canonical_id`: only the canonical spelling is accepted. */
  function ParseCanonicalId(s: string): Result<Uuid> {
    match ParseUuid(s)
    case None => Err(InvalidArgument)
    case Some(id) => if PrintUuid(id) != s then Err(InvalidArgument) else Ok(id)
  }

  lemma CanonicalIdIsExact(s: string, id: Uuid)
    ensures ParseCanonicalId(s) == Ok(id) <==> s == PrintUuid(id)
  {
    UuidRoundTrip(id);
  }

  // ---- Host bindings ----

  const BINDING_PREFIX := "https://postproject.org/ref/v1/"

  function ObjectKind(target: ObjectRef): string {
    match target
    case Production(_) => "production"
    case Asset(_) => "asset"
    case Representation(_) => "representation"
    case Resource(_) => "resource"
    case Activity(_) => "activity"
    case Job(_) => "job"
  }

  function PrintBinding(binding: HostObjectBinding): string {
    BINDING_PREFIX + PrintUuid(binding.production) + "/" + ObjectKind(binding.target) + "/"
    + PrintUuid(binding.target.id)
  }

  /** The pieces between separators; a string without the separator is one piece. */
  function Split(s: string, separator: char): (parts: seq<string>)
    ensures |parts| > 0
  {
    if s == "" then
      [""]
    else
      var rest := Split(s[1..], separator);
      if s[0] == separator then [""] + rest else [[s[0]] + rest[0]] + rest[1..]
  }

  function ParseObject(kind: string, id: string): Result<ObjectRef> {
    if kind == "production" then
      var id :- ParseCanonicalId(id); Ok(Production(id))
    else if kind == "asset" then
      var id :- ParseCanonicalId(id); Ok(Asset(id))
    else if kind == "representation" then
      var id :- ParseCanonicalId(id); Ok(Representation(id))
    else if kind == "resource" then
      var id :- ParseCanonicalId(id); Ok(Resource(id))
    else if kind == "activity" then
      var id :- ParseCanonicalId(id); Ok(Activity(id))
    else if kind == "job" then
      var id :- ParseCanonicalId(id); Ok(Job(id))
    else
      Err(InvalidArgument)
  }

  function ParseBinding(s: string): Result<HostObjectBinding> {
    if !(BINDING_PREFIX <= s) then
      Err(InvalidArgument)
    else
      var parts := Split(s[|BINDING_PREFIX|..], '/');
      if |parts| != 3 then
        Err(InvalidArgument)
      else
        var production :- ParseCanonicalId(parts[0]);
        var target :- ParseObject(parts[1], parts[2]);
        NewBinding(production, target)
  }

  /** A target is accepted in a production's file unless it is another production. */
  lemma BindingAcceptsExactly(production: Uuid, target: ObjectRef)
    ensures NewBinding(production, target).Ok? <==> !target.Production? || target == Production(production)
    ensures NewBinding(production, target).Ok? ==>
      NewBinding(production, target).value.production == production
      && NewBinding(production, target).value.target == target
  {}

  /** A binding is printed as a link that names the production, the kind of the object and the object. */
  lemma PrintedBindingShape(binding: HostObjectBinding)
    ensures exists kind: string ::
      && PrintBinding(binding) == "https://postproject.org/ref/v1/" + PrintUuid(binding.production)
                                  + "/" + kind + "/" + PrintUuid(binding.target.id)
      && (binding.target.Production? <==> kind == "production")
      && (binding.target.Asset? <==> kind == "asset")
      && (binding.target.Representation? <==> kind == "representation")
      && (binding.target.Resource? <==> kind == "resource")
      && (binding.target.Activity? <==> kind == "activity")
      && (binding.target.Job? <==> kind == "job")
  {
    hide PrintUuid;
    assert BINDING_PREFIX + PrintUuid(binding.production) + "/" + ObjectKind(binding.target) + "/"
           + PrintUuid(binding.target.id) == PrintBinding(binding);
  }

  lemma {:induction false} SplitFirst(head: string, separator: char, tail: string)
    requires separator !in head
    ensures Split(head, separator) == [head]
    ensures Split(head + [separator] + tail, separator) == [head] + Split(tail, separator)
  {
    var s := head + [separator] + tail;
    if head == "" {
      assert s[1..] == tail;
    } else {
      SplitFirst(head[1..], separator, tail);
      assert s[1..] == head[1..] + [separator] + tail;
      assert [head[0]] + head[1..] == head;
    }
  }

  function Join(parts: seq<string>, separator: char): string
    requires |parts| > 0
  {
    if |parts| == 1 then parts[0] else parts[0] + [separator] + Join(parts[1..], separator)
  }

  lemma {:induction false} JoinUndoesSplit(s: string, separator: char)
    ensures Join(Split(s, separator), separator) == s
  {
    if s != "" {
      JoinUndoesSplit(s[1..], separator);
      var rest := Split(s[1..], separator);
      assert s == [s[0]] + s[1..];
      if s[0] == separator {
        assert Split(s, separator)[1..] == rest;
      } else {
        assert Split(s, separator)[1..] == rest[1..];
      }
    }
  }

  lemma ObjectIsExact(kind: string, id: string, target: ObjectRef)
    ensures ParseObject(kind, id) == Ok(target) <==> kind == ObjectKind(target) && id == PrintUuid(target.id)
  {
    hide PrintUuid, ParseUuid;
    CanonicalIdIsExact(id, target.id);
    match ParseCanonicalId(id) {
      case Ok(parsed) => CanonicalIdIsExact(id, parsed);
      case Err(_) =>
    }
  }

  lemma ThreePartsJoin(a: string, b: string, c: string)
    ensures Join([a, b, c], '/') == a + "/" + b + "/" + c
  {
    assert [a, b, c][1..] == [b, c] && [b, c][1..] == [c];
    assert Join([b, c], '/') == b + "/" + c;
    assert a + ['/'] + (b + "/" + c) == a + "/" + b + "/" + c;
  }

  /** Printing and parsing are mutually inverse: exactly the printed text of a binding is read as that binding. */
  lemma BindingTextIsExact(s: string, binding: HostObjectBinding)
    ensures ParseBinding(s) == Ok(binding) <==> s == PrintBinding(binding)
  {
    hide PrintUuid, ParseCanonicalId, ParseObject, Split, Join;
    var production, kind, id := PrintUuid(binding.production), ObjectKind(binding.target), PrintUuid(binding.target.id);
    var path := production + "/" + kind + "/" + id;
    CanonicalIdIsExact(production, binding.production);
    ObjectIsExact(kind, id, binding.target);
    if s == PrintBinding(binding) {
      assert s == BINDING_PREFIX + path;
      SplitPath(binding.production, binding.target);
    }
    if ParseBinding(s) == Ok(binding) {
      var rest := s[|BINDING_PREFIX|..];
      var parts := Split(rest, '/');
      CanonicalIdIsExact(parts[0], binding.production);
      ObjectIsExact(parts[1], parts[2], binding.target);
      assert parts == [production, kind, id];
      JoinUndoesSplit(rest, '/');
      ThreePartsJoin(production, kind, id);
      assert s == BINDING_PREFIX + rest;
    }
  }

  lemma SplitPath(production: Uuid, target: ObjectRef)
    ensures Split(PrintUuid(production) + "/" + ObjectKind(target) + "/" + PrintUuid(target.id), '/')
         == [PrintUuid(production), ObjectKind(target), PrintUuid(target.id)]
  {
    hide PrintUuid, Split;
    var p, kind, id := PrintUuid(production), ObjectKind(target), PrintUuid(target.id);
    UuidTextHasNoSlash(production);
    UuidTextHasNoSlash(target.id);
    assert p + "/" + kind + "/" + id == p + "/" + (kind + "/" + id);
    SplitFirst(p, '/', kind + "/" + id);
    SplitFirst(kind, '/', id);
    SplitFirst(id, '/', "");
  }
}
