/** Frame domains, sequence file names and content structures (crates/postproject-core/src/content.rs). */
module Content {
  import opened Wrappers
  import opened Machine
  import opened Utf8
  import opened IntegerText
  import opened Orders
  import opened Identity
  import opened Time

  const MAX_SEQUENCE_PATTERN_BYTES := 1024
  const MAX_FRAME_PADDING := 32
  const MAX_SEQUENCE_EXCEPTIONS := 100_000
  const MAX_CONTENT_MEMBERS := 100_000

  // ---- Frame ranges ----

  datatype FrameRangeData = FrameRange(start: I64, end: I64, step: U32) {
    predicate Valid() {
      step > 0 && start <= end && (end - start) % step == 0
    }
  }

  type FrameRange = r: FrameRangeData | r.Valid() witness FrameRange(0, 0, 1)

  function NewFrameRange(start: I64, end: I64, step: U32): Result<FrameRange> {
    if step == 0 || end < start then
      Err(InvalidArgument)
    else if (end - start) % step != 0 then
      Err(InvalidArgument)
    else
      Ok(FrameRange(start, end, step))
  }

  function FrameCount(range: FrameRange): nat {
    (range.end - range.start) / range.step + 1
  }

  predicate ContainsFrame(range: FrameRange, frame: int) {
    range.start <= frame <= range.end && (frame - range.start) % range.step == 0
  }

  ghost function FrameSet(range: FrameRange): set<int> {
    set frame | range.start <= frame <= range.end && ContainsFrame(range, frame)
  }

  /** The first n frames of the arithmetic progression. */
  ghost function FirstFrames(start: int, step: int, n: nat): set<int> {
    if n == 0 then {} else FirstFrames(start, step, n - 1) + {start + step * (n - 1)}
  }

  ghost predicate IsFrameNumber(start: int, step: int, frame: int, k: int) {
    frame == start + step * k
  }

  lemma FramesDiffer(start: int, step: int, n: nat, frame: int)
    requires step > 0 && frame == start + step * n
    ensures forall f :: IsFrameNumber(start, step, f, n) <==> f == frame
    ensures forall k :: 0 <= k < n ==> !IsFrameNumber(start, step, frame, k)
  {
    forall k | 0 <= k < n
      ensures !IsFrameNumber(start, step, frame, k)
    {
      MulDistribute(step, k, n - k);
      MulBounds(step, n - k);
    }
  }

  lemma OneMoreFrame(front: set<int>, start: int, step: int, n: nat)
    requires step > 0
    requires forall f :: f in front <==> exists k :: 0 <= k < n && IsFrameNumber(start, step, f, k)
    ensures var last := start + step * n;
      && last !in front
      && forall f :: f in front + {last} <==> exists k :: 0 <= k < n + 1 && IsFrameNumber(start, step, f, k)
  {
    var last := start + step * n;
    FramesDiffer(start, step, n, last);
    assert IsFrameNumber(start, step, last, n);
    hide IsFrameNumber;
    forall f
      ensures f in front + {last} <==> exists k :: 0 <= k < n + 1 && IsFrameNumber(start, step, f, k)
    {
      if f in front {
        var k :| 0 <= k < n && IsFrameNumber(start, step, f, k);
        assert 0 <= k < n + 1;
      }
    }
  }

  lemma {:induction false} FirstFramesMembers(start: int, step: int, n: nat)
    requires step > 0
    ensures forall f :: f in FirstFrames(start, step, n) <==> exists k :: 0 <= k < n && IsFrameNumber(start, step, f, k)
    ensures |FirstFrames(start, step, n)| == n
  {
    hide IsFrameNumber;
    if n > 0 {
      FirstFramesMembers(start, step, n - 1);
      OneMoreFrame(FirstFrames(start, step, n - 1), start, step, n - 1);
    }
  }

  lemma FrameIsProgressionMember(range: FrameRange, frame: int)
    ensures ContainsFrame(range, frame)
       <==> exists k :: 0 <= k < FrameCount(range) && IsFrameNumber(range.start, range.step, frame, k)
  {
    var d, e, s := frame - range.start, range.end - range.start, range.step;
    if ContainsFrame(range, frame) {
      QuotientMonotone(d, e, s);
      assert IsFrameNumber(range.start, s, frame, d / s);
    }
    if k :| 0 <= k < FrameCount(range) && IsFrameNumber(range.start, s, frame, k) {
      RemainderIs(d, s, k, 0);
      MulMonotone(k, e / s, s);
      MulMonotone(0, k, s);
    }
  }

  lemma QuotientMonotone(a: int, b: int, s: int)
    requires s > 0 && 0 <= a <= b && a % s == 0 && b % s == 0
    ensures 0 <= a / s <= b / s && a == s * (a / s)
  {
    if a / s > b / s {
      MulMonotone(b / s + 1, a / s, s);
    }
  }

  /** A range is accepted exactly when the end lies a whole number of positive steps after the start. */
  lemma FrameRangeAcceptsExactly(start: I64, end: I64, step: U32)
    ensures NewFrameRange(start, end, step).Ok? <==> step > 0 && exists n: nat :: IsFrameNumber(start, step, end, n)
    ensures NewFrameRange(start, end, step).Ok? ==>
      var range := NewFrameRange(start, end, step).value;
      && ContainsFrame(range, start) && ContainsFrame(range, end)
      && range == FrameRange(start, end, step)
  {
    if NewFrameRange(start, end, step).Ok? {
      QuotientMonotone(end - start, end - start, step);
      assert IsFrameNumber(start, step, end, (end - start) / step);
    }
    if step > 0 {
      if n: nat :| IsFrameNumber(start, step, end, n) {
        RemainderIs(end - start, step, n, 0);
        MulMonotone(0, n, step);
      }
    }
  }

  /** The reported count is the number of frames the range accepts. */
  lemma FrameCountIsCardinality(range: FrameRange)
    ensures |FrameSet(range)| == FrameCount(range)
  {
    var frames := FirstFrames(range.start, range.step, FrameCount(range));
    FirstFramesMembers(range.start, range.step, FrameCount(range));
    forall f
      ensures f in FrameSet(range) <==> f in frames
    {
      FrameIsProgressionMember(range, f);
    }
    assert FrameSet(range) == frames;
  }

  // ---- Sequence file names ----

  datatype PatternData = Pattern(prefix: string, suffix: string, padding: U8) {
    predicate Valid() {
      && (prefix != "" || suffix != "")
      && Utf8Length(prefix) + Utf8Length(suffix) <= MAX_SEQUENCE_PATTERN_BYTES
      && (forall c :: c in prefix || c in suffix ==> c != '/' && c != '\\' && c != '\0')
      && padding <= MAX_FRAME_PADDING
    }
  }

  const PLAIN_PATTERN := Pattern("f", "", 0)

  lemma PlainPatternIsValid()
    ensures PLAIN_PATTERN.Valid()
  {
    assert Utf8Length("") == 0;
    assert Encode("f") == Encode("") + EncodeChar('f');
  }

  type ImageSequencePattern = p: PatternData | p.Valid()
    ghost witness (PlainPatternIsValid(); PLAIN_PATTERN)

  /** `ImageSequencePattern::new`. */
  function NewPattern(prefix: string, suffix: string, padding: U8): Result<ImageSequencePattern> {
    if || (prefix == "" && suffix == "")
       || Utf8Length(prefix) + Utf8Length(suffix) > MAX_SEQUENCE_PATTERN_BYTES
       || (exists c :: c in prefix && c in "/\\\0")
       || (exists c :: c in suffix && c in "/\\\0")
       || padding > MAX_FRAME_PADDING
    then
      Err(InvalidArgument)
    else
      Ok(Pattern(prefix, suffix, padding))
  }

  /** A pattern is accepted exactly when some affix is there and no affix can leave the directory. */
  lemma PatternAcceptsExactly(prefix: string, suffix: string, padding: U8)
    ensures NewPattern(prefix, suffix, padding).Ok?
       <==> && prefix + suffix != ""
            && |Encode(prefix)| + |Encode(suffix)| <= 1024
            && '/' !in prefix + suffix && '\\' !in prefix + suffix && '\0' !in prefix + suffix
            && padding <= 32
    ensures NewPattern(prefix, suffix, padding).Ok? ==>
      NewPattern(prefix, suffix, padding).value == Pattern(prefix, suffix, padding)
  {
    hide Encode;
  }

  function Filename(pattern: ImageSequencePattern, frame: I64): string {
    pattern.prefix + PrintPadded(frame, pattern.padding) + pattern.suffix
  }

  /** Reading the frame number out of a file name of the pattern. */
  function FrameOf(pattern: ImageSequencePattern, name: string): Result<int> {
    var affixes := |pattern.prefix| + |pattern.suffix|;
    if |name| < affixes then
      Err(InvalidArgument)
    else
      ParseInt(name[|pattern.prefix|..|name| - |pattern.suffix|], I64_MIN, I64_MAX)
  }

  /** The frame can be recovered from its name, so distinct frames have distinct names. */
  lemma FilenameDeterminesFrame(pattern: ImageSequencePattern, frame: I64, other: I64)
    ensures FrameOf(pattern, Filename(pattern, frame)) == Ok(frame)
    ensures Filename(pattern, frame) == Filename(pattern, other) ==> frame == other
  {
    FilenameParses(pattern, frame);
    FilenameParses(pattern, other);
  }

  lemma FilenameParses(pattern: ImageSequencePattern, frame: I64)
    ensures FrameOf(pattern, Filename(pattern, frame)) == Ok(frame)
  {
    hide PrintPadded, ParseInt;
    var name, middle := Filename(pattern, frame), PrintPadded(frame, pattern.padding);
    assert name[|pattern.prefix|..|name| - |pattern.suffix|] == middle;
    PaddedTextParses(frame, pattern.padding, I64_MIN, I64_MAX);
  }

  /**
   * The name is the prefix, the sign and digits of the frame, and the suffix. Sign and digits fill the
   * padding with zeros between them, and go beyond it exactly when the number itself is longer.
   */
  lemma FilenameShape(pattern: ImageSequencePattern, frame: I64)
    ensures exists middle: string ::
      && Filename(pattern, frame) == pattern.prefix + middle + pattern.suffix
      && Spells(middle, frame, true)
      && |middle| == (if |PrintInt(frame)| < pattern.padding then pattern.padding else |PrintInt(frame)|)
      && (middle[0] == '-' <==> frame < 0)
      && '+' !in middle
  {
    hide PrintPadded, PrintInt, Spells;
    PaddedShape(frame, pattern.padding);
    assert Filename(pattern, frame) == pattern.prefix + PrintPadded(frame, pattern.padding) + pattern.suffix;
  }

  /** The names that the repository's tests expect for a padding of four. */
  lemma FilenameExamples(pattern: ImageSequencePattern)
    requires pattern == Pattern("shot.", ".exr", 4)
    ensures Filename(pattern, 12) == "shot.0012.exr"
    ensures Filename(pattern, -2) == "shot.-002.exr"
  {
    assert Zeros(2) == "00" && PrintNat(12) == "12";
  }

  // ---- Image sequences ----

  datatype DescriptorData = Descriptor(
    resource: Uuid, pattern: ImageSequencePattern, frames: FrameRange, rate: Rate, knownMissing: seq<I64>)
  {
    ghost predicate Valid() {
      && (forall i, j :: 0 <= i < j < |knownMissing| ==> knownMissing[i] < knownMissing[j])
      && (forall i :: 0 <= i < |knownMissing| ==> ContainsFrame(frames, knownMissing[i]))
    }
  }

  function Canonical(frames: seq<I64>): (canonical: seq<I64>)
    ensures forall x :: x in canonical <==> x in frames
    ensures forall i, j :: 0 <= i < j < |canonical| ==> canonical[i] < canonical[j]
    ensures |canonical| <= |frames|
  {
    SortDedupInts(frames);
    var t: seq<int> := Dedup<int>(Sort<int>(IntLeq(), frames));
    assert forall i :: 0 <= i < |t| ==> t[i] in t && t[i] in frames;
    t
  }

  function NewDescriptor(resource: Uuid, pattern: ImageSequencePattern, frames: FrameRange, rate: Rate,
                         knownMissing: seq<I64>): Result<DescriptorData> {
    if |knownMissing| > MAX_SEQUENCE_EXCEPTIONS then
      Err(InvalidArgument)
    else if exists i :: 0 <= i < |knownMissing| && !ContainsFrame(frames, knownMissing[i]) then
      Err(InvalidArgument)
    else
      Ok(Descriptor(resource, pattern, frames, rate, Canonical(knownMissing)))
  }

  /** A descriptor is accepted exactly with at most 100000 exceptions that are all frames; its parts are kept. */
  lemma DescriptorAcceptsExactly(resource: Uuid, pattern: ImageSequencePattern, frames: FrameRange, rate: Rate,
                                 knownMissing: seq<I64>)
    ensures var d := NewDescriptor(resource, pattern, frames, rate, knownMissing);
      && (d.Ok? <==> |knownMissing| <= 100_000 && forall f :: f in knownMissing ==> f in FrameSet(frames))
      && (d.Ok? ==> d.value.resource == resource && d.value.pattern == pattern
                    && d.value.frames == frames && d.value.rate == rate)
  {
    if forall f :: f in knownMissing ==> f in FrameSet(frames) {
      assert forall i :: 0 <= i < |knownMissing| ==> knownMissing[i] in FrameSet(frames);
    }
    forall f | f in knownMissing && NewDescriptor(resource, pattern, frames, rate, knownMissing).Ok?
      ensures f in FrameSet(frames)
    {
      var i :| 0 <= i < |knownMissing| && knownMissing[i] == f;
      assert ContainsFrame(frames, knownMissing[i]);
    }
  }

  predicate IsKnownMissing(descriptor: DescriptorData, frame: I64) {
    BinarySearch(descriptor.knownMissing, frame, 0, |descriptor.knownMissing|)
  }

  /**
   * The stored exceptions are ascending frames of the range, no more than the range has, and the binary
   * search answers for the list the caller gave.
   */
  lemma DescriptorKeepsTheCallersFrames(resource: Uuid, pattern: ImageSequencePattern, frames: FrameRange,
                                        rate: Rate, knownMissing: seq<I64>, frame: I64)
    requires NewDescriptor(resource, pattern, frames, rate, knownMissing).Ok?
    ensures var d := NewDescriptor(resource, pattern, frames, rate, knownMissing).value;
      && d.Valid()
      && |d.knownMissing| <= FrameCount(frames)
      && (IsKnownMissing(d, frame) <==> frame in knownMissing)
  {
    var d := NewDescriptor(resource, pattern, frames, rate, knownMissing).value;
    forall i | 0 <= i < |d.knownMissing|
      ensures ContainsFrame(frames, d.knownMissing[i])
    {
      assert d.knownMissing[i] in knownMissing;
    }
    AscendingIsNoLongerThanItsSet(d.knownMissing, FrameSet(frames));
    FrameCountIsCardinality(frames);
    BinarySearchIsMembership(d.knownMissing, frame, 0, |d.knownMissing|);
    assert frame in d.knownMissing <==> frame in knownMissing;
  }

  lemma {:induction false} AscendingIsNoLongerThanItsSet(s: seq<int>, domain: set<int>)
    requires forall i, j :: 0 <= i < j < |s| ==> s[i] < s[j]
    requires forall i :: 0 <= i < |s| ==> s[i] in domain
    ensures |s| <= |domain|
  {
    if s != [] {
      AscendingIsNoLongerThanItsSet(s[..|s| - 1], domain - {s[|s| - 1]});
    }
  }

  /** Descriptors differ only by the set of exceptions, not by how the caller listed it. */
  lemma DescriptorIgnoresOrder(resource: Uuid, pattern: ImageSequencePattern, frames: FrameRange, rate: Rate,
                               a: seq<I64>, b: seq<I64>)
    requires NewDescriptor(resource, pattern, frames, rate, a).Ok?
    requires NewDescriptor(resource, pattern, frames, rate, b).Ok?
    ensures NewDescriptor(resource, pattern, frames, rate, a) == NewDescriptor(resource, pattern, frames, rate, b)
       <==> forall f :: f in a <==> f in b
  {
    if forall f :: f in a <==> f in b {
      AscendingIsUnique(Canonical(a), Canonical(b));
    }
  }

  // ---- Content structures ----

  datatype ResourceMember = ResourceMember(resource: Uuid, role: string, required: bool)

  datatype StructureData =
    | SingleResource(single: Uuid)
    | ImageSequence(descriptor: DescriptorData)
    | OrderedParts(members: seq<ResourceMember>)
    | Package(members: seq<ResourceMember>)
  {
    /** What the constructors establish. */
    ghost predicate Valid() {
      match this
      case SingleResource(_) => true
      case ImageSequence(descriptor) => descriptor.Valid()
      case OrderedParts(members) =>
        MembersAreValid(members) && forall i :: 0 <= i < |members| ==> members[i].required
      case Package(members) =>
        MembersAreValid(members) && exists i :: 0 <= i < |members| && members[i].required
    }
  }

  type ContentStructure = s: StructureData | s.Valid() witness SingleResource(NIL_UUID)

  function MemberIds(members: seq<ResourceMember>): seq<Uuid> {
    seq(|members|, i requires 0 <= i < |members| => members[i].resource)
  }

  predicate MembersAreValid(members: seq<ResourceMember>) {
    1 <= |members| <= MAX_CONTENT_MEMBERS && Distinct(MemberIds(members))
  }

  function NewOrderedParts(members: seq<ResourceMember>): Result<ContentStructure> {
    if !MembersAreValid(members) then
      Err(InvalidArgument)
    else if exists i :: 0 <= i < |members| && !members[i].required then
      Err(InvalidArgument)
    else
      Ok(OrderedParts(members))
  }

  function NewPackage(members: seq<ResourceMember>): Result<ContentStructure> {
    if !MembersAreValid(members) then
      Err(InvalidArgument)
    else if !exists i :: 0 <= i < |members| && members[i].required then
      Err(InvalidArgument)
    else
      Ok(Package(members))
  }

  function ResourceIds(structure: ContentStructure): seq<Uuid> {
    match structure
    case SingleResource(resource) => [resource]
    case ImageSequence(descriptor) => [descriptor.resource]
    case OrderedParts(members) => MemberIds(members)
    case Package(members) => MemberIds(members)
  }

  /** `resource_is_required`: without members everything is; otherwise the member found decides. */
  predicate IsRequired(structure: ContentStructure, resource: Uuid) {
    match structure
    case OrderedParts(members) => FirstMemberIsRequired(members, resource)
    case Package(members) => FirstMemberIsRequired(members, resource)
    case _ => true
  }

  predicate FirstMemberIsRequired(members: seq<ResourceMember>, resource: Uuid) {
    if members == [] then
      false
    else if members[0].resource == resource then
      members[0].required
    else
      FirstMemberIsRequired(members[1..], resource)
  }

  lemma {:induction false} MemberLookup(members: seq<ResourceMember>, i: nat)
    requires i < |members| && Distinct(MemberIds(members))
    ensures FirstMemberIsRequired(members, members[i].resource) == members[i].required
  {
    if i > 0 {
      assert MemberIds(members)[0] != MemberIds(members)[i];
      forall j, k | 0 <= j < k < |members[1..]|
        ensures MemberIds(members[1..])[j] != MemberIds(members[1..])[k]
      {
        assert MemberIds(members)[j + 1] != MemberIds(members)[k + 1];
      }
      MemberLookup(members[1..], i - 1);
    }
  }

  /**
   * Ordered parts are accepted exactly for 1 to 100000 distinct resources that are all required, packages
   * when at least one is; the structure then answers for every member as it was given.
   */
  lemma MembersAcceptedExactly(members: seq<ResourceMember>)
    ensures var parts, package := NewOrderedParts(members), NewPackage(members);
      var bounded := 1 <= |members| <= 100_000 && Distinct(MemberIds(members));
      && (parts.Ok? <==> bounded && forall i :: 0 <= i < |members| ==> members[i].required)
      && (package.Ok? <==> bounded && exists i :: 0 <= i < |members| && members[i].required)
      && (parts.Ok? ==> AnswersFor(parts.value, members))
      && (package.Ok? ==> AnswersFor(package.value, members))
  {
    hide Distinct;
    if MembersAreValid(members) {
      forall i | 0 <= i < |members|
        ensures FirstMemberIsRequired(members, members[i].resource) == members[i].required
      {
        MemberLookup(members, i);
      }
    }
  }

  ghost predicate AnswersFor(structure: ContentStructure, members: seq<ResourceMember>) {
    && ResourceIds(structure) == MemberIds(members)
    && forall i :: 0 <= i < |members| ==> IsRequired(structure, members[i].resource) == members[i].required
  }

  /** Whether the structure needs the resource: a lone resource always, a member when it says so. */
  ghost predicate Needs(structure: ContentStructure, resource: Uuid) {
    match structure
    case SingleResource(single) => resource == single
    case ImageSequence(descriptor) => resource == descriptor.resource
    case OrderedParts(members) => exists i :: 0 <= i < |members| && members[i].resource == resource
    case Package(members) => exists i :: 0 <= i < |members| && members[i].resource == resource && members[i].required
  }

  /** The first member found answers for each resource of the structure as the structure says. */
  lemma RequiredExactly(structure: ContentStructure, resource: Uuid)
    requires resource in ResourceIds(structure)
    ensures IsRequired(structure, resource) <==> Needs(structure, resource)
  {
    if structure.OrderedParts? || structure.Package? {
      var i :| 0 <= i < |structure.members| && structure.members[i].resource == resource;
      MemberLookup(structure.members, i);
      forall j | 0 <= j < |structure.members| && structure.members[j].resource == resource
        ensures j == i
      {
        assert MemberIds(structure.members)[j] == MemberIds(structure.members)[i];
      }
    }
  }

  /** Every structure names distinct resources, and at least one of them is required. */
  lemma SomeResourceIsRequired(structure: ContentStructure)
    ensures Distinct(ResourceIds(structure))
    ensures exists i :: 0 <= i < |ResourceIds(structure)| && IsRequired(structure, ResourceIds(structure)[i])
  {
    match structure
    case SingleResource(resource) =>
      assert IsRequired(structure, ResourceIds(structure)[0]);
    case ImageSequence(descriptor) =>
      assert IsRequired(structure, ResourceIds(structure)[0]);
    case OrderedParts(members) =>
      MemberLookup(members, 0);
      assert IsRequired(structure, ResourceIds(structure)[0]);
    case Package(members) =>
      var i :| 0 <= i < |members| && members[i].required;
      MemberLookup(members, i);
      assert IsRequired(structure, ResourceIds(structure)[i]);
  }
}
