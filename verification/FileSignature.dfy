/**
 The streaming file inspector and the type decision made from it.

 The inspector sees a file as a stream of chunks and keeps only 64 leading bytes, 65,557
 trailing bytes, a running digest and a count. Everything below relates that bounded view to
 the whole content: the view is a function of the content alone, and it is enough to decide
 the type and to find a ZIP end-of-central-directory record (section 4.3.16 of PKWARE
 APPNOTE.TXT) whatever its comment.
 */
module FileSignature {
  import opened Common

  const HEAD_BYTES: nat := 64
  /** Enough of the end to hold the record that closes a ZIP archive, 22 bytes, behind the longest comment, 65,535. */
  const TAIL_BYTES: nat := 65_557
  const EOCD_BYTES: nat := 22
  const EOCD_SIGNATURE: Bytes := [0x50, 0x4b, 0x05, 0x06]

  /** SHA-256 taken as an injective digest: it stands for the bytes it was computed from. */
  datatype Digest = Sha256(preimage: Bytes)

  datatype FileType = Jpeg | Png | Webp | Gif | Pdf | Psd | Clip | Zip
  datatype Context = Brief | Thread | Submission | ResolutionEvidence

  datatype Inspection = Inspection(bytes: nat, sha256: Digest, head: Bytes, tail: Bytes)
  datatype Classification = Allowed(fileType: FileType) | TypeNotAllowed

  // ----- the whole-content definitions

  function FirstBytes(content: Bytes, n: nat): (r: Bytes)
    ensures |r| == Min(n, |content|) && r <= content
  {
    content[..Min(n, |content|)]
  }

  function LastBytes(content: Bytes, n: nat): (r: Bytes)
    ensures |r| == Min(n, |content|)
    ensures forall i :: 0 <= i < |r| ==> r[i] == content[|content| - |r| + i]
  {
    content[|content| - Min(n, |content|)..]
  }

  /** What the inspector reports about `content`, however it was cut into chunks. */
  function InspectionOf(content: Bytes): Inspection {
    Inspection(|content|, Sha256(content), FirstBytes(content, HEAD_BYTES), LastBytes(content, TAIL_BYTES))
  }

  function Concat(chunks: seq<Bytes>): Bytes {
    if chunks == [] then [] else Concat(chunks[..|chunks| - 1]) + chunks[|chunks| - 1]
  }

  predicate StartsWithAt(data: Bytes, expected: Bytes, offset: nat) {
    |data| >= offset + |expected| && data[offset..offset + |expected|] == expected
  }

  function DetectType(head: Bytes): Option<FileType> {
    if StartsWithAt(head, [0xff, 0xd8, 0xff], 0) then Some(Jpeg)
    else if StartsWithAt(head, [0x89, 0x50, 0x4e, 0x47, 0x0d, 0x0a, 0x1a, 0x0a], 0) then Some(Png)
    else if StartsWithAt(head, [0x52, 0x49, 0x46, 0x46], 0)
        && StartsWithAt(head, [0x57, 0x45, 0x42, 0x50], 8) then Some(Webp)
    else if StartsWithAt(head, [0x47, 0x49, 0x46, 0x38, 0x37, 0x61], 0)
        || StartsWithAt(head, [0x47, 0x49, 0x46, 0x38, 0x39, 0x61], 0) then Some(Gif)
    else if StartsWithAt(head, [0x25, 0x50, 0x44, 0x46, 0x2d], 0) then Some(Pdf)
    else if StartsWithAt(head, [0x38, 0x42, 0x50, 0x53], 0) then Some(Psd)
    else if StartsWithAt(head, [0x43, 0x53, 0x46, 0x43, 0x48, 0x55, 0x4e, 0x4b], 0) then Some(Clip)
    else if StartsWithAt(head, [0x50, 0x4b, 0x03, 0x04], 0) then Some(Zip)
    else None
  }

  predicate SignatureAt(data: Bytes, i: int) {
    0 <= i && i + EOCD_BYTES <= |data|
    && data[i] == 0x50 && data[i + 1] == 0x4b && data[i + 2] == 0x05 && data[i + 3] == 0x06
  }

  /** Some position with room for a 22-byte record after it carries the signature. */
  ghost predicate HasZipDirectory(data: Bytes) {
    exists i :: SignatureAt(data, i)
  }

  function ContextTypes(context: Context): set<FileType> {
    match context
    case Brief => {Jpeg, Png, Webp, Gif, Pdf}
    case Thread => {Jpeg, Png, Webp, Gif, Pdf}
    case Submission => {Jpeg, Png, Webp, Gif, Pdf, Psd, Clip, Zip}
    case ResolutionEvidence => {Jpeg, Png, Webp, Pdf}
  }

  /** Types that must not pass for an archive as well. */
  predicate RefusesZipDirectory(t: FileType) {
    t in {Jpeg, Png, Webp, Gif, Pdf}
  }

  ghost function Classify(context: Context, inspection: Inspection): Classification {
    var detected := DetectType(inspection.head);
    if detected.None? || detected.value !in ContextTypes(context) then TypeNotAllowed
    else
      var zipDirectory := HasZipDirectory(inspection.tail);
      if (detected.value == Zip && !zipDirectory)
          || (RefusesZipDirectory(detected.value) && zipDirectory) then TypeNotAllowed
      else Allowed(detected.value)
  }

  // ----- the inspector

  /** The trailing window after one more chunk. */
  function NextTail(tail: Bytes, chunk: Bytes): Bytes {
    if |chunk| >= TAIL_BYTES then chunk[|chunk| - TAIL_BYTES..]
    else
      var merged := tail + chunk;
      if |merged| > TAIL_BYTES then merged[|merged| - TAIL_BYTES..] else merged
  }

  /** Dropping all but the window after every chunk loses nothing of the final window. */
  lemma NextTailIsLast(content: Bytes, chunk: Bytes)
    ensures NextTail(LastBytes(content, TAIL_BYTES), chunk) == LastBytes(content + chunk, TAIL_BYTES)
  {
    var all := content + chunk;
    var tail := LastBytes(content, TAIL_BYTES);
    if |chunk| < TAIL_BYTES {
      assert tail + chunk == all[|content| - |tail|..];
      LastOfSuffix(all, |content| - |tail|, TAIL_BYTES);
    }
  }

  /** The last bytes of a long enough suffix are those of the whole. */
  lemma LastOfSuffix(all: Bytes, from: nat, n: nat)
    requires from <= |all| && (from == 0 || |all| - from >= n)
    ensures LastBytes(all[from..], n) == LastBytes(all, n)
  {
  }

  class Inspector {
    const head: array<Byte>
    var headLength: nat
    var bytes: nat
    var tail: Bytes
    var hashed: Bytes
    var finished: bool
    /** Everything the inspector has been given. */
    ghost var content: Bytes

    ghost predicate Valid()
      reads this, head
    {
      && head.Length == HEAD_BYTES
      && hashed == content
      && bytes == |content|
      && headLength == Min(HEAD_BYTES, |content|)
      && head[..headLength] == FirstBytes(content, HEAD_BYTES)
      && tail == LastBytes(content, TAIL_BYTES)
    }

    constructor ()
      ensures Valid() && content == [] && !finished
      ensures fresh(head)
    {
      head := new Byte[HEAD_BYTES];
      headLength, bytes, tail, hashed, finished, content := 0, 0, [], [], false, [];
    }

    /** Takes one chunk; refuses it once the inspection is finished. */
    method Update(chunk: Bytes) returns (accepted: bool)
      requires Valid()
      modifies this, head
      ensures Valid()
      ensures accepted == !old(finished) && finished == old(finished)
      ensures content == if accepted then old(content) + chunk else old(content)
    {
      accepted := !finished;
      if finished { return; }
      hashed := hashed + chunk;
      bytes := bytes + |chunk|;
      TakeHead(chunk);
      NextTailIsLast(content, chunk);
      tail := NextTail(tail, chunk);
      content := content + chunk;
    }

    /** Fills what is still free of the 64 leading bytes. */
    method TakeHead(chunk: Bytes)
      requires head.Length == HEAD_BYTES && headLength == Min(HEAD_BYTES, |content|)
      requires head[..headLength] == FirstBytes(content, HEAD_BYTES)
      modifies this`headLength, head
      ensures headLength == Min(HEAD_BYTES, |content + chunk|)
      ensures head[..headLength] == FirstBytes(content + chunk, HEAD_BYTES)
    {
      FirstOfAppend(content, chunk, HEAD_BYTES);
      if headLength < HEAD_BYTES {
        var take := Min(HEAD_BYTES - headLength, |chunk|);
        CopyInto(head, headLength, chunk[..take]);
        headLength := headLength + take;
      }
    }

    method Finish() returns (inspection: Inspection)
      requires Valid()
      modifies this`finished
      ensures Valid() && finished && content == old(content)
      ensures inspection == InspectionOf(content)
    {
      finished := true;
      inspection := Inspection(bytes, Sha256(hashed), head[..headLength], tail);
    }
  }

  method CopyInto(target: array<Byte>, offset: nat, data: Bytes)
    requires offset + |data| <= target.Length
    modifies target
    ensures target[..offset] == old(target[..offset])
    ensures target[..offset + |data|] == old(target[..offset]) + data
  {
    for i := 0 to |data|
      invariant target[..offset] == old(target[..offset])
      invariant target[offset..offset + i] == data[..i]
    {
      target[offset + i] := data[i];
    }
    assert target[..offset + |data|] == target[..offset] + target[offset..offset + |data|];
  }

  lemma FirstOfAppend(a: Bytes, b: Bytes, n: nat)
    ensures |a| >= n ==> FirstBytes(a + b, n) == FirstBytes(a, n)
    ensures |a| < n ==> FirstBytes(a + b, n) == a + b[..Min(n - |a|, |b|)]
  {
  }

  /** Streaming refinement: every chunking of a content gives the whole-content inspection. */
  method InspectStream(chunks: seq<Bytes>) returns (inspection: Inspection)
    ensures inspection == InspectionOf(Concat(chunks))
  {
    var inspector := new Inspector();
    for i := 0 to |chunks|
      invariant fresh(inspector) && fresh(inspector.head)
      invariant inspector.Valid() && !inspector.finished
      invariant inspector.content == Concat(chunks[..i])
    {
      var accepted := inspector.Update(chunks[i]);
      assert chunks[..i + 1][..i] == chunks[..i];
    }
    assert chunks[..|chunks|] == chunks;
    inspection := inspector.Finish();
  }

  /** The backwards search from the last place a record can start. */
  method SearchZipDirectory(tail: Bytes) returns (found: bool)
    ensures found <==> HasZipDirectory(tail)
  {
    var index := |tail| - EOCD_BYTES;
    while index >= 0
      invariant -1 <= index || |tail| < EOCD_BYTES
      invariant forall i :: i > index ==> !SignatureAt(tail, i)
    {
      if tail[index] == 0x50 && tail[index + 1] == 0x4b && tail[index + 2] == 0x05 && tail[index + 3] == 0x06 {
        assert SignatureAt(tail, index);
        return true;
      }
      index := index - 1;
    }
    return false;
  }

  // ----- what the bounded view is enough for

  /** No signature reaches past the first 64 bytes, so the head decides the type of the file. */
  lemma HeadDecidesType(content: Bytes)
    ensures DetectType(InspectionOf(content).head) == DetectType(content)
  {
    HeadKeepsPrefix(content, [0xff, 0xd8, 0xff], 0);
    HeadKeepsPrefix(content, [0x89, 0x50, 0x4e, 0x47, 0x0d, 0x0a, 0x1a, 0x0a], 0);
    HeadKeepsPrefix(content, [0x52, 0x49, 0x46, 0x46], 0);
    HeadKeepsPrefix(content, [0x57, 0x45, 0x42, 0x50], 8);
    HeadKeepsPrefix(content, [0x47, 0x49, 0x46, 0x38, 0x37, 0x61], 0);
    HeadKeepsPrefix(content, [0x47, 0x49, 0x46, 0x38, 0x39, 0x61], 0);
    HeadKeepsPrefix(content, [0x25, 0x50, 0x44, 0x46, 0x2d], 0);
    HeadKeepsPrefix(content, [0x38, 0x42, 0x50, 0x53], 0);
    HeadKeepsPrefix(content, [0x43, 0x53, 0x46, 0x43, 0x48, 0x55, 0x4e, 0x4b], 0);
    HeadKeepsPrefix(content, [0x50, 0x4b, 0x03, 0x04], 0);
  }

  lemma HeadKeepsPrefix(content: Bytes, expected: Bytes, offset: nat)
    requires offset + |expected| <= HEAD_BYTES
    ensures StartsWithAt(FirstBytes(content, HEAD_BYTES), expected, offset) == StartsWithAt(content, expected, offset)
  {
    var head := FirstBytes(content, HEAD_BYTES);
    if |head| >= offset + |expected| {
      assert head[offset..offset + |expected|] == content[offset..offset + |expected|];
    }
  }

  /** A record start that the tail still covers. */
  ghost predicate RecordNearEnd(content: Bytes, i: int) {
    |content| - TAIL_BYTES <= i && SignatureAt(content, i)
  }

  /** A signature in a suffix is the same signature further on in the whole. */
  lemma SuffixShiftsSignatures(content: Bytes, from: nat, i: nat)
    requires from <= |content|
    ensures SignatureAt(content[from..], i) <==> SignatureAt(content, from + i)
  {
    assert forall j :: 0 <= j < |content| - from ==> content[from..][j] == content[from + j];
  }

  /** The tail search sees exactly the records that start in the last 65,557 bytes of the file. */
  lemma TailSearchIsWholeFileSearch(content: Bytes)
    ensures HasZipDirectory(InspectionOf(content).tail) <==> exists i :: RecordNearEnd(content, i)
  {
    var tail := InspectionOf(content).tail;
    var from := |content| - |tail|;
    assert tail == content[from..];
    assert forall i :: RecordNearEnd(content, i) <==> RecordFrom(content, from, i);
    SuffixSearch(content, from);
  }

  ghost predicate RecordFrom(content: Bytes, from: nat, i: int) {
    from <= i && SignatureAt(content, i)
  }

  lemma SuffixSearch(content: Bytes, from: nat)
    requires from <= |content|
    ensures HasZipDirectory(content[from..]) <==> exists i :: RecordFrom(content, from, i)
  {
    if HasZipDirectory(content[from..]) {
      var i :| SignatureAt(content[from..], i);
      SuffixShiftsSignatures(content, from, i);
      assert RecordFrom(content, from, from + i);
    }
    if i :| RecordFrom(content, from, i) {
      SuffixShiftsSignatures(content, from, i - from);
    }
  }

  /** A record is found behind any archive bytes and in front of any comment a ZIP can hold. */
  lemma EndRecordIsFound(archive: Bytes, fields: Bytes, comment: Bytes)
    requires |fields| == EOCD_BYTES - |EOCD_SIGNATURE|
    requires |comment| <= 65_535
    ensures HasZipDirectory(InspectionOf(archive + EOCD_SIGNATURE + fields + comment).tail)
  {
    var content := archive + EOCD_SIGNATURE + fields + comment;
    var record := EOCD_SIGNATURE + fields + comment;
    assert content == archive + record;
    assert forall k :: 0 <= k < 4 ==> content[|archive| + k] == EOCD_SIGNATURE[k];
    assert RecordNearEnd(content, |archive|);
    TailSearchIsWholeFileSearch(content);
  }

  /** The decision stated on the file itself: type by its first bytes, polyglots by its last ones. */
  ghost predicate Acceptable(context: Context, content: Bytes, t: FileType) {
    && DetectType(content) == Some(t)
    && t in ContextTypes(context)
    && (t == Zip ==> exists i :: RecordNearEnd(content, i))
    && (RefusesZipDirectory(t) ==> !exists i :: RecordNearEnd(content, i))
  }

  /** Classification depends only on the content, in both directions. */
  lemma ClassificationIsOfContent(context: Context, content: Bytes, t: FileType)
    ensures Classify(context, InspectionOf(content)) == Allowed(t) <==> Acceptable(context, content, t)
  {
    HeadDecidesType(content);
    TailSearchIsWholeFileSearch(content);
  }

  // ----- the signatures and the contexts

  /** The bytes that mark a file of each type. */
  predicate Carries(content: Bytes, t: FileType) {
    match t
    case Jpeg => [0xff, 0xd8, 0xff] <= content
    case Png => [0x89, 0x50, 0x4e, 0x47, 0x0d, 0x0a, 0x1a, 0x0a] <= content
    case Webp => |content| >= 12 && content[..4] == [0x52, 0x49, 0x46, 0x46]
        && content[8..12] == [0x57, 0x45, 0x42, 0x50]
    case Gif => [0x47, 0x49, 0x46, 0x38, 0x37, 0x61] <= content || [0x47, 0x49, 0x46, 0x38, 0x39, 0x61] <= content
    case Pdf => [0x25, 0x50, 0x44, 0x46, 0x2d] <= content
    case Psd => [0x38, 0x42, 0x50, 0x53] <= content
    case Clip => [0x43, 0x53, 0x46, 0x43, 0x48, 0x55, 0x4e, 0x4b] <= content
    case Zip => [0x50, 0x4b, 0x03, 0x04] <= content
  }

  lemma PrefixAtStart(content: Bytes, expected: Bytes)
    ensures StartsWithAt(content, expected, 0) <==> expected <= content
  {
    if |content| >= |expected| {
      assert content[0..|expected|] == content[..|expected|];
    }
  }

  /** No content carries two signatures, so the order of the tests does not matter. */
  lemma {:induction false} TypeIsTheSignature(content: Bytes, t: FileType)
    ensures DetectType(content) == Some(t) <==> Carries(content, t)
  {
    PrefixAtStart(content, [0xff, 0xd8, 0xff]);
    PrefixAtStart(content, [0x89, 0x50, 0x4e, 0x47, 0x0d, 0x0a, 0x1a, 0x0a]);
    PrefixAtStart(content, [0x47, 0x49, 0x46, 0x38, 0x37, 0x61]);
    PrefixAtStart(content, [0x47, 0x49, 0x46, 0x38, 0x39, 0x61]);
    PrefixAtStart(content, [0x25, 0x50, 0x44, 0x46, 0x2d]);
    PrefixAtStart(content, [0x38, 0x42, 0x50, 0x53]);
    PrefixAtStart(content, [0x43, 0x53, 0x46, 0x43, 0x48, 0x55, 0x4e, 0x4b]);
    PrefixAtStart(content, [0x50, 0x4b, 0x03, 0x04]);
    assert |content| >= 12 ==> content[0..4] == content[..4];
    FirstByte(content, t);
    var detected := DetectType(content);
    if detected.Some? {
      FirstByte(content, detected.value);
    }
  }

  /** The first byte of a signature, different for every type. */
  function Lead(t: FileType): Byte {
    match t
    case Jpeg => 0xff
    case Png => 0x89
    case Webp => 0x52
    case Gif => 0x47
    case Pdf => 0x25
    case Psd => 0x38
    case Clip => 0x43
    case Zip => 0x50
  }

  lemma FirstByte(content: Bytes, t: FileType)
    ensures Carries(content, t) ==> |content| > 0 && content[0] == Lead(t)
  {
    if t.Webp? && Carries(content, t) {
      assert content[..4][0] == content[0];
    }
  }

  /**
   What each context takes: a submission everything; a brief and a message only what can be shown
   inline, which is what must not double as an archive; evidence the same without animations.
   */
  lemma ContextsNest(t: FileType)
    ensures t in ContextTypes(Submission)
    ensures t in ContextTypes(Brief) <==> RefusesZipDirectory(t)
    ensures t in ContextTypes(Thread) <==> t in ContextTypes(Brief)
    ensures t in ContextTypes(ResolutionEvidence) <==> t in ContextTypes(Brief) && t != Gif
    ensures RefusesZipDirectory(t) <==> t != Psd && t != Clip && t != Zip
  {
  }

  /** The four bytes that open the record which ends a zip archive. */
  const ZIP_END: Bytes := [0x50, 0x4b, 0x05, 0x06]

  /** A directory is found exactly where the four bytes are followed by the record's eighteen others. */
  lemma ZipDirectoryExactly(data: Bytes)
    ensures HasZipDirectory(data) <==> exists before, rest :: |rest| >= 18 && data == before + ZIP_END + rest
  {
    if i :| SignatureAt(data, i) {
      assert data == data[..i] + ZIP_END + data[i + 4..];
    }
    forall before, rest | |rest| >= 18 && data == before + ZIP_END + rest ensures HasZipDirectory(data) {
      assert SignatureAt(before + ZIP_END + rest, |before|);
    }
  }
}
