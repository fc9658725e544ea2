/**
 What one scan attempt decides from the object it opened: the streamed bytes, the scanner's
 verdict and the type found in the bytes.
 */
module ScanDecision {
  import opened Common
  import opened FileSignature

  datatype Rejection = Malware | TypeRejected | SizeMismatch | EncryptedArchive | LimitsExceeded

  /** The scanner's answer. A signature is kept only for malware. */
  datatype Verdict = NothingFound | Found(reason: Rejection, signature: string)

  datatype Decision =
    | Reject(reason: Rejection, signature: Option<string>)
    | Accept(fileType: FileType, sha256: Digest)

  predicate ScannerReason(reason: Rejection) {
    reason in {Malware, EncryptedArchive, LimitsExceeded}
  }

  /** A signature name as the scanner client cleans it and the table accepts it. */
  predicate SignatureText(s: string) {
    1 <= |s| <= 200
    && forall i :: 0 <= i < |s| ==>
         'A' <= s[i] <= 'Z' || 'a' <= s[i] <= 'z' || '0' <= s[i] <= '9' || s[i] in {'.', '_', ':', '-'}
  }

  /** What the scanner client can answer. */
  predicate ScannerVerdict(v: Verdict) {
    v.Found? ==> ScannerReason(v.reason) && SignatureText(v.signature)
  }

  /** A rejection as the row records it: a signature for malware and for nothing else. */
  predicate RejectionFits(reason: Rejection, signature: Option<string>) {
    (reason == Malware <==> signature.Some?) && (signature.Some? ==> SignatureText(signature.value))
  }

  /**
   The decision for an object whose metadata reports `length` (None: no such object) and whose
   stream delivered `delivered` to the scanner before it answered.
   */
  ghost function Decide(
    context: Context, declared: nat, length: Option<nat>, delivered: Bytes, verdict: Verdict): Decision {
    if length != Some(declared) then Reject(SizeMismatch, None)
    else if |delivered| != declared then Reject(SizeMismatch, None)
    else if verdict.Found?
        then Reject(verdict.reason, if verdict.reason == Malware then Some(verdict.signature) else None)
    else match Classify(context, InspectionOf(delivered))
      case Allowed(t) => Accept(t, Sha256(delivered))
      case TypeNotAllowed => Reject(TypeRejected, None)
  }

  /**
   The generator between the store and the scanner: it stops at the chunk that would pass the
   declared size, and everything before it reaches the inspector.
   */
  method InspectUpTo(chunks: seq<Bytes>, declared: nat) returns (inspection: Inspection, overflow: bool)
    ensures overflow <==> |Concat(chunks)| > declared
    ensures !overflow ==> inspection == InspectionOf(Concat(chunks))
    ensures inspection.bytes <= declared
  {
    var inspector := new Inspector();
    var seen := 0;
    overflow := false;
    var i := 0;
    while i < |chunks|
      invariant 0 <= i <= |chunks|
      invariant fresh(inspector) && fresh(inspector.head)
      invariant inspector.Valid() && !inspector.finished
      invariant inspector.content == Concat(chunks[..i]) && seen == |inspector.content| <= declared
    {
      seen := seen + |chunks[i]|;
      ConcatGrows(chunks, i + 1);
      assert chunks[..i + 1][..i] == chunks[..i];
      if seen > declared {
        inspection := inspector.Finish();
        return inspection, true;
      }
      var accepted := inspector.Update(chunks[i]);
      i := i + 1;
    }
    assert chunks[..|chunks|] == chunks;
    inspection := inspector.Finish();
  }

  /**
   One scan from the object's reported length on: refuse a wrong length, stream the chunks the
   scanner consumed through the inspector, then weigh overflow, size, verdict and type in turn.
   */
  method DecideStream(
    context: Context, declared: nat, length: Option<nat>, chunks: seq<Bytes>, verdict: Verdict)
    returns (decision: Decision)
    ensures decision == Decide(context, declared, length, Concat(chunks), verdict)
  {
    if length.None? || length.value != declared {
      return Reject(SizeMismatch, None);
    }
    var inspection, overflow := InspectUpTo(chunks, declared);
    if overflow || inspection.bytes != declared {
      return Reject(SizeMismatch, None);
    }
    if verdict.Found? {
      return Reject(verdict.reason, if verdict.reason == Malware then Some(verdict.signature) else None);
    }
    var zip := SearchZipDirectory(inspection.tail);
    var detected := DetectType(inspection.head);
    if detected.None? || detected.value !in ContextTypes(context) {
      return Reject(TypeRejected, None);
    }
    if (detected.value.Zip? && !zip) || (detected.value in {Jpeg, Png, Webp, Gif, Pdf} && zip) {
      return Reject(TypeRejected, None);
    }
    decision := Accept(detected.value, inspection.sha256);
  }

  lemma {:induction false} ConcatGrows(chunks: seq<Bytes>, i: nat)
    requires i <= |chunks|
    ensures |Concat(chunks[..i])| <= |Concat(chunks)|
    decreases |chunks| - i
  {
    if i == |chunks| {
      assert chunks[..i] == chunks;
    } else {
      assert chunks[..i + 1][..i] == chunks[..i];
      ConcatGrows(chunks, i + 1);
    }
  }

  /**
   An accepted object was read whole. The store is trusted for two things: the reported length
   is that of the version, and a stream yields a prefix of it. Then acceptance means exactly:
   the scanner saw every byte, found nothing, and the content itself is acceptable.
   */
  lemma AcceptanceIsAboutTheWholeObject(
    context: Context, declared: nat, content: Bytes, delivered: Bytes, verdict: Verdict, t: FileType, sha256: Digest)
    requires delivered <= content
    ensures Decide(context, declared, Some(|content|), delivered, verdict) == Accept(t, sha256)
            <==> && delivered == content && |content| == declared && verdict.NothingFound?
                 && sha256 == Sha256(content) && Acceptable(context, content, t)
  {
    ClassificationIsOfContent(context, delivered, t);
    if |delivered| == |content| {
      assert delivered == content;
    }
  }

  /** The object was read whole at its declared size. */
  predicate ReadWhole(declared: nat, length: Option<nat>, delivered: Bytes) {
    length == Some(declared) && |delivered| == declared
  }

  /**
   When a rejection is the answer, and which one: a wrong size exactly when the reported length or
   what was delivered is not the declared size; otherwise the scanner's own reason exactly when it
   found one, with its signature for malware and none for anything else; and the type exactly when
   nothing was found and no type makes the content acceptable.
   */
  lemma RejectionExactly(
    context: Context, declared: nat, length: Option<nat>, delivered: Bytes, verdict: Verdict, reason: Rejection,
    signature: Option<string>)
    requires ScannerVerdict(verdict)
    ensures var rejected := Decide(context, declared, length, delivered, verdict) == Reject(reason, signature);
            && (reason == SizeMismatch ==>
                  (rejected <==> !ReadWhole(declared, length, delivered) && signature.None?))
            && (ScannerReason(reason) ==>
                  (rejected <==>
                    && ReadWhole(declared, length, delivered) && verdict.Found? && verdict.reason == reason
                    && signature == if reason == Malware then Some(verdict.signature) else None))
            && (reason == TypeRejected ==>
                  (rejected <==>
                    && ReadWhole(declared, length, delivered) && verdict.NothingFound? && signature.None?
                    && forall t :: !Acceptable(context, delivered, t)))
  {
    forall t ensures Classify(context, InspectionOf(delivered)) == Allowed(t) <==> Acceptable(context, delivered, t) {
      ClassificationIsOfContent(context, delivered, t);
    }
  }
}
