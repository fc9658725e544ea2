/**
 Replay references: the short text a completed command stores so that a retry can be given the
 result of the first attempt. Each is a tag and some fields separated by colons.
 */
module ReplayReference {
  import opened Common

  // ----- decimal numerals

  predicate IsDigit(c: char) { '0' <= c <= '9' }

  predicate AllDigits(s: string) { forall i :: 0 <= i < |s| ==> IsDigit(s[i]) }

  function DigitChar(d: nat): (c: char)
    requires d < 10
    ensures IsDigit(c) && DigitValue(c) == d
  {
    '0' + d as char
  }

  function DigitValue(c: char): (d: nat)
    requires IsDigit(c)
    ensures d < 10
  {
    c as int - '0' as int
  }

  /** How a number is printed. */
  function Decimal(n: nat): string {
    if n < 10 then [DigitChar(n)] else Decimal(n / 10) + [DigitChar(n % 10)]
  }

  /** The number that a string of digits denotes. */
  function Value(s: string): nat
    requires AllDigits(s)
  {
    if s == [] then 0 else 10 * Value(s[..|s| - 1]) + DigitValue(s[|s| - 1])
  }

  function Signed(n: int): string {
    if n < 0 then "-" + Decimal(-n) else Decimal(n)
  }

  predicate Numeral(s: string) { s != [] && AllDigits(s) }

  /** A numeral without a leading zero. */
  predicate PositiveNumeral(s: string) { Numeral(s) && s[0] != '0' }

  lemma {:induction false} DecimalRoundTrip(n: nat)
    ensures Numeral(Decimal(n)) && Value(Decimal(n)) == n
    ensures n > 0 ==> PositiveNumeral(Decimal(n))
  {
    if n < 10 {
      assert Decimal(n)[..0] == [];
    } else {
      DecimalRoundTrip(n / 10);
      var d := Decimal(n);
      assert d[..|d| - 1] == Decimal(n / 10);
    }
  }

  lemma {:induction false} ValueIsPositive(s: string)
    requires PositiveNumeral(s)
    ensures Value(s) > 0
  {
    if |s| == 1 {
      assert s[..0] == [];
    } else {
      ValueIsPositive(s[..|s| - 1]);
    }
  }

  lemma {:induction false} NumeralRoundTrip(s: string)
    requires PositiveNumeral(s)
    ensures Decimal(Value(s)) == s
  {
    var front := s[..|s| - 1];
    assert s == front + [s[|s| - 1]];
    if front != [] {
      ValueIsPositive(front);
      NumeralRoundTrip(front);
    }
  }

  function Pow10(k: nat): nat { if k == 0 then 1 else 10 * Pow10(k - 1) }

  lemma {:induction false} DecimalLength(n: nat, k: nat)
    requires k > 0 && n < Pow10(k)
    ensures |Decimal(n)| <= k
  {
    if n >= 10 {
      DecimalLength(n / 10, k - 1);
    }
  }

  // ----- fields between colons

  predicate NoColon(s: string) { forall i :: 0 <= i < |s| ==> s[i] != ':' }

  function Join(fields: seq<string>): string
    requires fields != []
  {
    if |fields| == 1 then fields[0] else fields[0] + [':'] + Join(fields[1..])
  }

  function Split(s: string): (fields: seq<string>)
    ensures fields != []
  {
    if s == [] then [[]]
    else
      var rest := Split(s[1..]);
      if s[0] == ':' then [[]] + rest else [[s[0]] + rest[0]] + rest[1..]
  }

  lemma {:induction false} SplitField(field: string, rest: string)
    requires NoColon(field)
    ensures Split(field + [':'] + rest) == [field] + Split(rest)
    ensures Split(field) == [field]
  {
    if field == [] {
      assert (field + [':'] + rest)[1..] == rest;
    } else {
      SplitField(field[1..], rest);
      var whole := field + [':'] + rest;
      assert whole[1..] == field[1..] + [':'] + rest;
      assert [field[0]] + field[1..] == field;
      assert Split(whole) == [[whole[0]] + Split(whole[1..])[0]] + Split(whole[1..])[1..];
    }
  }

  lemma {:induction false} SplitJoin(fields: seq<string>)
    requires fields != [] && forall i :: 0 <= i < |fields| ==> NoColon(fields[i])
    ensures Split(Join(fields)) == fields
  {
    if |fields| == 1 {
      SplitField(fields[0], []);
    } else {
      SplitJoin(fields[1..]);
      SplitField(fields[0], Join(fields[1..]));
    }
  }

  lemma {:induction false} JoinSplit(s: string)
    ensures Join(Split(s)) == s
  {
    if s != [] {
      JoinSplit(s[1..]);
      var rest := Split(s[1..]);
      if s[0] == ':' {
        assert Split(s)[1..] == rest;
      } else {
        assert Split(s)[1..] == rest[1..];
      }
    }
  }

  function TotalLength(fields: seq<string>): nat {
    if fields == [] then 0 else |fields[0]| + TotalLength(fields[1..])
  }

  predicate ReferenceChar(c: char) {
    'A' <= c <= 'Z' || 'a' <= c <= 'z' || IsDigit(c) || c == '.' || c == '_' || c == ':' || c == '-'
  }

  predicate ReferenceChars(s: string) { forall i :: 0 <= i < |s| ==> ReferenceChar(s[i]) }

  lemma {:induction false} JoinShape(fields: seq<string>)
    requires fields != [] && forall i :: 0 <= i < |fields| ==> ReferenceChars(fields[i])
    ensures |Join(fields)| == TotalLength(fields) + |fields| - 1
    ensures ReferenceChars(Join(fields))
    ensures |Join(fields)| >= |fields[0]| && Join(fields)[..|fields[0]|] == fields[0]
  {
    if |fields| == 1 {
      assert TotalLength(fields[1..]) == 0;
    } else {
      JoinShape(fields[1..]);
    }
  }

  /** What the command table accepts as a reference. */
  predicate Storable(s: string) {
    1 <= |s| <= 200 && ReferenceChars(s) && s[0] != '.' && s[0] != '_' && s[0] != ':' && s[0] != '-'
  }

  // ----- the field classes of the four formats

  predicate IsId(s: string) {
    |s| == 36 && forall i :: 0 <= i < |s| ==> IsDigit(s[i]) || 'a' <= s[i] <= 'f' || s[i] == '-'
  }

  predicate IsHandle(s: string) {
    3 <= |s| <= 30 && forall i :: 0 <= i < |s| ==> IsDigit(s[i]) || 'a' <= s[i] <= 'z' || s[i] == '-'
  }

  /** The largest instant that a date object can hold. */
  const MAX_TIME: Instant := 8_640_000_000_000_000

  /** Version columns are 32-bit integers. */
  const MAX_VERSION: int := 0x7fff_ffff

  predicate IsTime(s: string) { Numeral(s) && Value(s) <= MAX_TIME }

  // ----- draft mutations

  datatype PageResult = PageResult(pageId: string, version: nat)

  function PageFields(r: PageResult): seq<string> { ["catalog-v1", r.pageId, Decimal(r.version)] }

  function PrintPage(r: PageResult): string { Join(PageFields(r)) }

  function ParsePage(s: string): Option<PageResult> {
    var f := Split(s);
    if |f| == 3 && f[0] == "catalog-v1" && IsId(f[1]) && PositiveNumeral(f[2])
    then Some(PageResult(f[1], Value(f[2])))
    else None
  }

  /** A draft mutation's reference parses back to its result, exactly for results it can have. */
  lemma PageRoundTrip(r: PageResult)
    ensures ParsePage(PrintPage(r)) == Some(r) <==> IsId(r.pageId) && r.version > 0
  {
    if IsId(r.pageId) && r.version > 0 {
      DecimalRoundTrip(r.version);
      SplitJoin(PageFields(r));
    } else if ParsePage(PrintPage(r)) == Some(r) {
      ValueIsPositive(Split(PrintPage(r))[2]);
    }
  }

  /** Nothing else parses to it: the printed reference is the only one with that meaning. */
  lemma PageReferenceIsUnique(s: string, r: PageResult)
    ensures ParsePage(s) == Some(r) ==> s == PrintPage(r)
  {
    if ParsePage(s) == Some(r) {
      JoinSplit(s);
      NumeralRoundTrip(Split(s)[2]);
      assert Split(s) == PageFields(r);
    }
  }

  // ----- publish

  datatype PublishResult = PublishResult(
    pageId: string, revisionId: string, revisionNumber: nat, canonicalHandle: string, draftVersion: nat,
        publishedAt: Instant)

  function PublishFields(r: PublishResult): seq<string> {
    ["catalog-publish-v1", r.pageId, r.revisionId, Decimal(r.revisionNumber), r.canonicalHandle,
        Decimal(r.draftVersion), Signed(r.publishedAt)]
  }

  function PrintPublish(r: PublishResult): string { Join(PublishFields(r)) }

  function ParsePublish(s: string): Option<PublishResult> {
    var f := Split(s);
    if |f| == 7 && f[0] == "catalog-publish-v1" && IsId(f[1]) && IsId(f[2]) && PositiveNumeral(f[3])
       && IsHandle(f[4]) && PositiveNumeral(f[5]) && IsTime(f[6])
    then Some(PublishResult(f[1], f[2], Value(f[3]), f[4], Value(f[5]), Value(f[6])))
    else None
  }

  /** A publish result whose fields satisfy the columns they were written to. */
  predicate StoredPublish(r: PublishResult) {
    && IsId(r.pageId) && IsId(r.revisionId) && IsHandle(r.canonicalHandle)
    && 0 < r.revisionNumber <= MAX_VERSION && 0 < r.draftVersion <= MAX_VERSION
    && -MAX_TIME <= r.publishedAt <= MAX_TIME
  }

  /** A publication replays as it was, unless its instant lies before 1970. */
  lemma PublishRoundTrip(r: PublishResult)
    requires StoredPublish(r)
    ensures ParsePublish(PrintPublish(r)) == Some(r) <==> r.publishedAt >= 0
  {
    if r.publishedAt >= 0 {
      DecimalRoundTrip(r.revisionNumber);
      DecimalRoundTrip(r.draftVersion);
      DecimalRoundTrip(r.publishedAt);
      SplitJoin(PublishFields(r));
    }
  }

  // ----- unpublish

  datatype UnpublishResult = UnpublishResult(pageId: string, previousRevisionId: string, draftVersion: nat,
      unpublishedAt: Instant)

  function UnpublishFields(r: UnpublishResult): seq<string> {
    ["catalog-unpublish-v1", r.pageId, r.previousRevisionId, Decimal(r.draftVersion), Signed(r.unpublishedAt)]
  }

  function PrintUnpublish(r: UnpublishResult): string { Join(UnpublishFields(r)) }

  function ParseUnpublish(s: string): Option<UnpublishResult> {
    var f := Split(s);
    if |f| == 5 && f[0] == "catalog-unpublish-v1" && IsId(f[1]) && IsId(f[2]) && PositiveNumeral(f[3]) && IsTime(f[4])
    then Some(UnpublishResult(f[1], f[2], Value(f[3]), Value(f[4])))
    else None
  }

  predicate StoredUnpublish(r: UnpublishResult) {
    && IsId(r.pageId) && IsId(r.previousRevisionId) && 0 < r.draftVersion <= MAX_VERSION
    && -MAX_TIME <= r.unpublishedAt <= MAX_TIME
  }

  lemma UnpublishRoundTrip(r: UnpublishResult)
    requires StoredUnpublish(r)
    ensures ParseUnpublish(PrintUnpublish(r)) == Some(r) <==> r.unpublishedAt >= 0
  {
    if r.unpublishedAt >= 0 {
      DecimalRoundTrip(r.draftVersion);
      DecimalRoundTrip(r.unpublishedAt);
      SplitJoin(UnpublishFields(r));
    }
  }

  // ----- creator applications

  datatype Outcome = Submitted | Withdrawn

  datatype Snapshot = Snapshot(state: Outcome, version: nat, applicationId: string, revisionId: string)

  function OutcomeText(o: Outcome): string { if o.Submitted? then "submitted" else "withdrawn" }

  function SnapshotFields(r: Snapshot): seq<string> {
    ["creator-result-v1", OutcomeText(r.state), Decimal(r.version), r.applicationId, r.revisionId]
  }

  function PrintSnapshot(r: Snapshot): string { Join(SnapshotFields(r)) }

  function ParseSnapshot(s: string): Option<Snapshot> {
    var f := Split(s);
    if |f| == 5 && f[0] == "creator-result-v1" && (f[1] == "submitted" || f[1] == "withdrawn")
       && PositiveNumeral(f[2]) && IsId(f[3]) && IsId(f[4])
    then Some(Snapshot(if f[1] == "submitted" then Submitted else Withdrawn, Value(f[2]), f[3], f[4]))
    else None
  }

  lemma SnapshotRoundTrip(r: Snapshot)
    ensures ParseSnapshot(PrintSnapshot(r)) == Some(r) <==> IsId(r.applicationId) && IsId(r.revisionId) && r.version > 0
  {
    if IsId(r.applicationId) && IsId(r.revisionId) && r.version > 0 {
      DecimalRoundTrip(r.version);
      SplitJoin(SnapshotFields(r));
    } else if ParseSnapshot(PrintSnapshot(r)) == Some(r) {
      ValueIsPositive(Split(PrintSnapshot(r))[2]);
    }
  }

  lemma SnapshotReferenceIsUnique(s: string, r: Snapshot)
    ensures ParseSnapshot(s) == Some(r) ==> s == PrintSnapshot(r)
  {
    if ParseSnapshot(s) == Some(r) {
      JoinSplit(s);
      NumeralRoundTrip(Split(s)[2]);
      assert Split(s) == SnapshotFields(r);
    }
  }

  // ----- every reference fits the command table

  lemma VersionText(n: nat)
    requires n <= MAX_VERSION
    ensures |Decimal(n)| <= 10 && ReferenceChars(Decimal(n))
  {
    assert Pow10(10) == 10_000_000_000;
    DecimalLength(n, 10);
    DecimalRoundTrip(n);
  }

  lemma TimeText(t: Instant)
    requires -MAX_TIME <= t <= MAX_TIME
    ensures |Signed(t)| <= 17 && ReferenceChars(Signed(t))
  {
    var n: nat := if t < 0 then -t else t;
    assert Pow10(8) == 100_000_000;
    assert Pow10(16) == 10_000_000_000_000_000;
    DecimalLength(n, 16);
    DecimalRoundTrip(n);
  }

  lemma {:induction false} TotalOfFive(a: string, b: string, c: string, d: string, e: string)
    ensures TotalLength([a, b, c, d, e]) == |a| + |b| + |c| + |d| + |e|
  {
    assert [a, b, c, d, e][1..] == [b, c, d, e];
    assert [b, c, d, e][1..] == [c, d, e];
    assert [c, d, e][1..] == [d, e];
    assert [d, e][1..] == [e];
    assert TotalLength([e]) == |e|;
    assert TotalLength([d, e]) == |d| + |e|;
    assert TotalLength([c, d, e]) == |c| + |d| + |e|;
    assert TotalLength([b, c, d, e]) == |b| + |c| + |d| + |e|;
  }

  lemma PublishIsStorable(r: PublishResult)
    requires StoredPublish(r)
    ensures Storable(PrintPublish(r)) && |PrintPublish(r)| <= 163
  {
    var f := PublishFields(r);
    VersionText(r.revisionNumber);
    VersionText(r.draftVersion);
    TimeText(r.publishedAt);
    JoinShape(f);
    assert f[2..] == [r.revisionId, Decimal(r.revisionNumber), r.canonicalHandle, Decimal(r.draftVersion),
        Signed(r.publishedAt)];
    TotalOfFive(f[2], f[3], f[4], f[5], f[6]);
    assert f[1..][1..] == f[2..];
    assert f[0][0] == 'c';
  }

  lemma UnpublishIsStorable(r: UnpublishResult)
    requires StoredUnpublish(r)
    ensures Storable(PrintUnpublish(r))
  {
    var f := UnpublishFields(r);
    VersionText(r.draftVersion);
    TimeText(r.unpublishedAt);
    JoinShape(f);
    TotalOfFive(f[0], f[1], f[2], f[3], f[4]);
    assert f[0][0] == 'c';
  }

  lemma SnapshotIsStorable(r: Snapshot)
    requires IsId(r.applicationId) && IsId(r.revisionId) && r.version <= MAX_VERSION
    ensures Storable(PrintSnapshot(r))
  {
    var f := SnapshotFields(r);
    VersionText(r.version);
    JoinShape(f);
    TotalOfFive(f[0], f[1], f[2], f[3], f[4]);
    assert f[0][0] == 'c';
  }

  lemma PageIsStorable(r: PageResult)
    requires IsId(r.pageId) && r.version <= MAX_VERSION
    ensures Storable(PrintPage(r))
  {
    var f := PageFields(r);
    VersionText(r.version);
    JoinShape(f);
    assert f[1..][1..] == [f[2]];
    assert TotalLength([f[2]]) == |f[2]|;
    assert f[0][0] == 'c';
  }

  // ----- every text that parses

  predicate Zeros(s: string) { forall i :: 0 <= i < |s| ==> s[i] == '0' }

  lemma {:induction false} ZeroInFront(s: string)
    requires AllDigits(s)
    ensures AllDigits("0" + s) && Value("0" + s) == Value(s)
  {
    var t := "0" + s;
    if s == [] {
      assert t[..0] == [];
    } else {
      ZeroInFront(s[..|s| - 1]);
      assert t[..|t| - 1] == "0" + s[..|s| - 1];
    }
  }

  lemma {:induction false} ZerosInFront(zeros: string, n: nat)
    requires Zeros(zeros)
    ensures Numeral(zeros + Decimal(n)) && Value(zeros + Decimal(n)) == n
  {
    DecimalRoundTrip(n);
    if zeros == [] {
      assert zeros + Decimal(n) == Decimal(n);
    } else {
      ZerosInFront(zeros[1..], n);
      ZeroInFront(zeros[1..] + Decimal(n));
      assert zeros + Decimal(n) == "0" + (zeros[1..] + Decimal(n));
    }
  }

  lemma {:induction false} NumeralIsPadded(s: string) returns (zeros: string)
    requires Numeral(s)
    ensures Zeros(zeros) && s == zeros + Decimal(Value(s))
  {
    if s[0] != '0' {
      zeros := [];
      NumeralRoundTrip(s);
    } else if |s| == 1 {
      zeros := [];
      assert s[..0] == [] && s == "0";
    } else {
      var rest := NumeralIsPadded(s[1..]);
      ZeroInFront(s[1..]);
      zeros := "0" + rest;
      assert s == "0" + s[1..];
    }
  }

  /** A publication that a reference can name: valid ids and handle, positive numbers, an instant from 1970 on. */
  predicate Publishable(r: PublishResult) {
    && IsId(r.pageId) && IsId(r.revisionId) && r.revisionNumber > 0 && IsHandle(r.canonicalHandle)
    && r.draftVersion > 0 && 0 <= r.publishedAt <= MAX_TIME
  }

  function PaddedPublish(r: PublishResult, zeros: string): seq<string>
    requires r.publishedAt >= 0
  {
    PublishFields(r)[..6] + [zeros + Decimal(r.publishedAt)]
  }

  lemma ParsedIsPadded(s: string, r: PublishResult) returns (zeros: string)
    requires ParsePublish(s) == Some(r)
    ensures Publishable(r) && Zeros(zeros) && s == Join(PaddedPublish(r, zeros))
  {
    var f := Split(s);
    JoinSplit(s);
    NumeralRoundTrip(f[3]);
    NumeralRoundTrip(f[5]);
    ValueIsPositive(f[3]);
    ValueIsPositive(f[5]);
    zeros := NumeralIsPadded(f[6]);
    assert f == PaddedPublish(r, zeros);
  }

  lemma PaddedIsParsed(r: PublishResult, zeros: string)
    requires Publishable(r) && Zeros(zeros)
    ensures ParsePublish(Join(PaddedPublish(r, zeros))) == Some(r)
  {
    DecimalRoundTrip(r.revisionNumber);
    DecimalRoundTrip(r.draftVersion);
    ZerosInFront(zeros, r.publishedAt);
    SplitJoin(PaddedPublish(r, zeros));
  }

  /**
   Exactly what a publication's reference may look like: the printed fields of a result that it can name, of
   which the instant alone may carry zeros in front.
   */
  lemma PublishReferenceExactly(s: string, r: PublishResult)
    ensures ParsePublish(s) == Some(r) <==>
              Publishable(r) && exists zeros :: Zeros(zeros) && s == Join(PaddedPublish(r, zeros))
  {
    if ParsePublish(s) == Some(r) {
      var zeros := ParsedIsPadded(s, r);
    }
    if Publishable(r) {
      forall zeros | Zeros(zeros) && s == Join(PaddedPublish(r, zeros)) ensures ParsePublish(s) == Some(r) {
        PaddedIsParsed(r, zeros);
      }
    }
  }

  lemma UnpublishReferenceExactly(s: string, r: UnpublishResult)
    ensures ParseUnpublish(s) == Some(r) <==>
              && IsId(r.pageId) && IsId(r.previousRevisionId) && r.draftVersion > 0
              && 0 <= r.unpublishedAt <= MAX_TIME
              && exists zeros :: Zeros(zeros) &&
                   s == Join(UnpublishFields(r)[..4] + [zeros + Decimal(r.unpublishedAt)])
  {
    if ParseUnpublish(s) == Some(r) {
      var f := Split(s);
      JoinSplit(s);
      NumeralRoundTrip(f[3]);
      ValueIsPositive(f[3]);
      var zeros := NumeralIsPadded(f[4]);
      assert f == UnpublishFields(r)[..4] + [zeros + Decimal(r.unpublishedAt)];
    }
    if IsId(r.pageId) && IsId(r.previousRevisionId) && r.draftVersion > 0 && 0 <= r.unpublishedAt <= MAX_TIME {
      forall zeros | Zeros(zeros) && s == Join(UnpublishFields(r)[..4] + [zeros + Decimal(r.unpublishedAt)])
        ensures ParseUnpublish(s) == Some(r)
      {
        DecimalRoundTrip(r.draftVersion);
        ZerosInFront(zeros, r.unpublishedAt);
        SplitJoin(UnpublishFields(r)[..4] + [zeros + Decimal(r.unpublishedAt)]);
      }
    }
  }

  /** No text means two different things: at most one of the four formats accepts it. */
  lemma FormatsAreApart(s: string)
    ensures ParsePage(s).Some? ==> ParsePublish(s).None? && ParseUnpublish(s).None? && ParseSnapshot(s).None?
    ensures ParsePublish(s).Some? ==> ParseUnpublish(s).None? && ParseSnapshot(s).None?
    ensures ParseUnpublish(s).Some? ==> ParseSnapshot(s).None?
  {
  }
}
