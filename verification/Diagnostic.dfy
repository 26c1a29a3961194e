/**
 * Bounding a failure diagnostic, and the failures that accept it (crates/postproject-cli/src/main.rs,
 * crates/postproject-core/src/job.rs).
 */
module Diagnostic {
  import opened Wrappers
  import opened Machine
  import opened Utf8

  const MAX_JOB_DIAGNOSTIC_BYTES := 4096

  /** The longest prefix of whole characters that fits the limit. */
  function Bounded(diagnostic: string): string {
    if Utf8Length(diagnostic) <= MAX_JOB_DIAGNOSTIC_BYTES then
      diagnostic
    else
      Bounded(diagnostic[..|diagnostic| - 1])
  }

  /** `JobFailure::new`. */
  function NewFailure(diagnostic: string): Result<string> {
    if diagnostic == "" || Utf8Length(diagnostic) > MAX_JOB_DIAGNOSTIC_BYTES || '\0' in diagnostic then
      Err(InvalidArgument)
    else
      Ok(diagnostic)
  }

  lemma {:induction false} PrefixIsBounded(diagnostic: string, kept: nat)
    requires kept <= |diagnostic| && Utf8Length(diagnostic[..kept]) <= MAX_JOB_DIAGNOSTIC_BYTES
    requires forall k :: kept < k <= |diagnostic| ==> Utf8Length(diagnostic[..k]) > MAX_JOB_DIAGNOSTIC_BYTES
    ensures Bounded(diagnostic) == diagnostic[..kept]
    decreases |diagnostic|
  {
    hide Encode;
    assert diagnostic[..|diagnostic|] == diagnostic;
    if kept < |diagnostic| {
      var front := diagnostic[..|diagnostic| - 1];
      assert forall k :: 0 <= k <= |front| ==> front[..k] == diagnostic[..k];
      PrefixIsBounded(front, kept);
    }
  }

  /**
   * `bounded_job_diagnostic`: the loop ends at the longest prefix of whole characters whose bytes fit the
   * limit, at most three bytes short of it.
   */
  method BoundedJobDiagnostic(diagnostic: string) returns (bounded: string)
    ensures bounded == Bounded(diagnostic) && bounded <= diagnostic
    ensures Utf8Length(bounded) <= MAX_JOB_DIAGNOSTIC_BYTES
    ensures forall k :: |bounded| < k <= |diagnostic| ==> Utf8Length(diagnostic[..k]) > MAX_JOB_DIAGNOSTIC_BYTES
    ensures if Utf8Length(diagnostic) <= MAX_JOB_DIAGNOSTIC_BYTES
            then bounded == diagnostic
            else Utf8Length(bounded) >= MAX_JOB_DIAGNOSTIC_BYTES - 3
  {
    hide Encode;
    var bytes := Encode(diagnostic);
    assert diagnostic[..|diagnostic|] == diagnostic;
    if |bytes| <= MAX_JOB_DIAGNOSTIC_BYTES {
      return diagnostic;
    }
    BoundaryWithinThree(diagnostic, MAX_JOB_DIAGNOSTIC_BYTES);
    var end := MAX_JOB_DIAGNOSTIC_BYTES;
    while !IsCharBoundary(bytes, end)
      invariant 0 <= end <= MAX_JOB_DIAGNOSTIC_BYTES
      invariant forall i :: end < i <= MAX_JOB_DIAGNOSTIC_BYTES ==> !IsCharBoundary(bytes, i)
      decreases end
    {
      end := end - 1;
    }
    BoundariesAreCharacterEnds(diagnostic, end);
    var kept: nat :| kept <= |diagnostic| && |Encode(diagnostic[..kept])| == end;
    LongerPrefixesAreOver(diagnostic, kept);
    PrefixIsBounded(diagnostic, kept);
    bounded := diagnostic[..kept];
  }

  /** After the last boundary within the limit every longer prefix is over it. */
  lemma LongerPrefixesAreOver(diagnostic: string, kept: nat)
    requires kept <= |diagnostic| && Utf8Length(diagnostic) > MAX_JOB_DIAGNOSTIC_BYTES
    requires Utf8Length(diagnostic[..kept]) <= MAX_JOB_DIAGNOSTIC_BYTES
    requires forall i :: Utf8Length(diagnostic[..kept]) < i <= MAX_JOB_DIAGNOSTIC_BYTES ==>
      !IsCharBoundary(Encode(diagnostic), i)
    ensures forall k :: kept < k <= |diagnostic| ==> Utf8Length(diagnostic[..k]) > MAX_JOB_DIAGNOSTIC_BYTES
  {
    hide Encode, IsCharBoundary;
    forall k | kept < k <= |diagnostic|
      ensures Utf8Length(diagnostic[..k]) > MAX_JOB_DIAGNOSTIC_BYTES
    {
      var length := Utf8Length(diagnostic[..k]);
      PrefixesAreShorter(diagnostic[..k]);
      assert diagnostic[..k][..kept] == diagnostic[..kept];
      if length <= MAX_JOB_DIAGNOSTIC_BYTES {
        BoundariesAreCharacterEnds(diagnostic, length);
      }
    }
  }

  /** A bounded diagnostic is refused exactly when it is empty or a NUL is among the kept characters. */
  lemma {:induction false} FailureAcceptedExactly(diagnostic: string)
    ensures NewFailure(Bounded(diagnostic)).Ok? <==> diagnostic != "" && '\0' !in Bounded(diagnostic)
    ensures NewFailure(Bounded(diagnostic)).Ok? ==> NewFailure(Bounded(diagnostic)).value == Bounded(diagnostic)
    ensures Utf8Length(Bounded(diagnostic)) <= MAX_JOB_DIAGNOSTIC_BYTES
    decreases |diagnostic|
  {
    hide Encode;
    AtMostFourBytesEach(diagnostic);
    if Utf8Length(diagnostic) > MAX_JOB_DIAGNOSTIC_BYTES {
      FailureAcceptedExactly(diagnostic[..|diagnostic| - 1]);
    }
  }

  lemma {:induction false} AtMostFourBytesEach(s: string)
    ensures |s| <= Utf8Length(s) <= 4 * |s|
  {
    hide EncodeChar;
    if s != "" {
      AtMostFourBytesEach(s[..|s| - 1]);
    }
  }

  /** A diagnostic is accepted exactly with 1 to 4096 bytes and no NUL, and kept as it is. */
  lemma FailureIsExact(diagnostic: string)
    ensures NewFailure(diagnostic).Ok? <==> 1 <= Utf8Length(diagnostic) <= 4096 && '\0' !in diagnostic
    ensures NewFailure(diagnostic).Ok? ==> NewFailure(diagnostic).value == diagnostic
  {
    hide Encode;
    AtMostFourBytesEach(diagnostic);
  }

  /** Short text is kept whole. */
  lemma ShortIsKept(diagnostic: string)
    requires |diagnostic| <= 1024
    ensures Bounded(diagnostic) == diagnostic
  {
    hide Encode;
    AtMostFourBytesEach(diagnostic);
  }

  /** A message that quotes a NUL from the executor's error output cannot be recorded. */
  lemma NulIsRefused()
    ensures NewFailure(Bounded("ffmpeg failed: a\0b")) == Err(InvalidArgument)
  {
    hide Encode;
    var d := "ffmpeg failed: a\0b";
    AtMostFourBytesEach(d);
    assert d[16] == '\0';
  }
}
