/** DocumentSplitter: cuts documents longer than MaxLength characters into
    parts, preferring to cut after a paragraph break, then after a sentence
    end, in the last fifth of the allowed length. */
module DocumentSplitter {
  import opened Common
  import opened Documents

  const MaxLength: nat := 20000
  /** `maxLength * 0.8` for MaxLength; the double is exactly this integer. */
  const LookBack: nat := 16000

  /** Character.isWhitespace on a UTF-16 code unit: the space, line and
      paragraph separators other than the no-break spaces, and the ASCII
      controls TAB, LF, VT, FF, CR and FS, GS, RS, US. */
  predicate IsWhitespace(c: char) {
    || c == '\t' || c == '\n' || c == '\U{0B}' || c == '\U{0C}' || c == '\r'
    || ('\U{1C}' <= c <= '\U{1F}') || c == ' ' || c == '\U{1680}'
    || ('\U{2000}' <= c <= '\U{2006}') || ('\U{2008}' <= c <= '\U{200A}')
    || c == '\U{2028}' || c == '\U{2029}' || c == '\U{205F}' || c == '\U{3000}'
  }

  /** The two kinds of break the splitter looks for. */
  datatype Break = Paragraph | Sentence

  /** isParagraphEnd / isSentenceEnd: a break sits at `i` when the next
      character exists and the pair is "\n\n", or a '.', '!' or '?' followed
      by whitespace. Both are false at the last index and beyond. */
  predicate IsBreak(b: Break, s: string, i: int) {
    && 0 <= i < |s| - 1
    && match b
       case Paragraph => s[i] == '\n' && s[i + 1] == '\n'
       case Sentence => (s[i] == '.' || s[i] == '!' || s[i] == '?') && IsWhitespace(s[i + 1])
  }

  /** The look-back loop: scanning down from `p` while above `lo`, the first
      (so rightmost) break position. */
  function LastBreak(b: Break, s: string, p: int, lo: int): (r: Option<int>)
    ensures r.Some? ==> lo < r.value <= p && IsBreak(b, s, r.value)
                        && forall j :: r.value < j <= p ==> !IsBreak(b, s, j)
    ensures r.None? ==> forall j :: lo < j <= p ==> !IsBreak(b, s, j)
    decreases p - lo
  {
    if p <= lo then None
    else if IsBreak(b, s, p) then Some(p)
    else LastBreak(b, s, p - 1, lo)
  }

  /** Whether position `j` lies in the look-back window of a part starting at `start`. */
  predicate InWindow(start: int, j: int) {
    start + LookBack < j <= start + MaxLength
  }

  /** findSplitPoint: where the part starting at `start` ends. */
  function FindSplitPoint(s: string, start: nat): (r: nat)
    requires start < |s|
    ensures start < r <= |s|
    ensures r - start <= MaxLength + 1
    ensures |s| - start <= MaxLength ==> r == |s|
    ensures |s| - start > MaxLength ==> r < |s| && r - start > LookBack
    // the break preference, when text remains beyond the window
    ensures |s| - start > MaxLength && (exists j :: InWindow(start, j) && IsBreak(Paragraph, s, j)) ==>
              IsBreak(Paragraph, s, r - 1) && forall j :: r - 1 < j <= start + MaxLength ==> !IsBreak(Paragraph, s, j)
    ensures |s| - start > MaxLength && (forall j :: InWindow(start, j) ==> !IsBreak(Paragraph, s, j))
            && (exists j :: InWindow(start, j) && IsBreak(Sentence, s, j)) ==>
              IsBreak(Sentence, s, r - 1) && forall j :: r - 1 < j <= start + MaxLength ==> !IsBreak(Sentence, s, j)
    ensures |s| - start > MaxLength && (forall j :: InWindow(start, j) ==> !IsBreak(Paragraph, s, j) && !IsBreak(Sentence, s, j)) ==>
              r == start + MaxLength
  {
    var end := if start + MaxLength < |s| then start + MaxLength else |s|;
    if end < |s| then
      match LastBreak(Paragraph, s, end, start + LookBack)
      case Some(p) => p + 1
      case None =>
        match LastBreak(Sentence, s, end, start + LookBack)
        case Some(q) => q + 1
        case None => end
    else end
  }

  /** The length defect: a paragraph break exactly at the window's end yields
      a part one character longer than MaxLength. */
  lemma SplitPartCanExceedMax()
    ensures var s := seq(MaxLength + 2, i => if i >= MaxLength then '\n' else 'a');
            FindSplitPoint(s, 0) == MaxLength + 1 && FindSplitPointIntended(s, 0) <= MaxLength
  {
    var s := seq(MaxLength + 2, i => if i >= MaxLength then '\n' else 'a');
    assert IsBreak(Paragraph, s, MaxLength);
  }

  /** findSplitPoint as evidently intended: the look-back starts one before
      the window's end, so a part never exceeds MaxLength. */
  function FindSplitPointIntended(s: string, start: nat): (r: nat)
    requires start < |s|
    ensures start < r <= |s|
    ensures r - start <= MaxLength
    ensures |s| - start <= MaxLength ==> r == |s|
  {
    var end := if start + MaxLength < |s| then start + MaxLength else |s|;
    if end < |s| then
      match LastBreak(Paragraph, s, end - 1, start + LookBack)
      case Some(p) => p + 1
      case None =>
        match LastBreak(Sentence, s, end - 1, start + LookBack)
        case Some(q) => q + 1
        case None => end
    else end
  }

  /** The loop of splitDocument over the contents: the parts from `start` on.
      Joined they give back the text; each is non-empty and at most
      MaxLength + 1 long; all but the last exceed LookBack; the last is at
      most MaxLength long. */
  function SplitContent(s: string, start: nat): (parts: seq<string>)
    requires start <= |s|
    ensures Concat(parts) == s[start..]
    ensures |parts| == 0 <==> start == |s|
    ensures forall i :: 0 <= i < |parts| ==> 0 < |parts[i]| <= MaxLength + 1
    ensures forall i :: 0 <= i < |parts| - 1 ==> |parts[i]| > LookBack
    ensures |parts| > 0 ==> |parts[|parts| - 1]| <= MaxLength
    decreases |s| - start
  {
    if start == |s| then []
    else
      var e := FindSplitPoint(s, start);
      var rest := SplitContent(s, e);
      assert s[start..] == s[start..e] + s[e..];
      [s[start..e]] + rest
  }

  /** The decimal form of a number, as Java's string concatenation writes it. */
  function NatToString(n: nat): (r: string)
    ensures |r| > 0 && forall i :: 0 <= i < |r| ==> '0' <= r[i] <= '9'
    ensures n >= 10 <==> |r| > 1
    decreases n
  {
    if n < 10 then ["0123456789"[n]]
    else NatToString(n / 10) + ["0123456789"[n % 10]]
  }

  lemma {:induction false} NatToStringInjective(a: nat, b: nat)
    requires NatToString(a) == NatToString(b)
    ensures a == b
    decreases a
  {
    var s := NatToString(a);
    if a >= 10 && b >= 10 {
      assert NatToString(a / 10) == s[..|s| - 1] == NatToString(b / 10);
      NatToStringInjective(a / 10, b / 10);
      assert "0123456789"[a % 10] == s[|s| - 1] == "0123456789"[b % 10];
    }
  }

  /** The id of part `n`: the original id, "_part", then n in decimal. */
  function PartId(origId: string, n: nat): string {
    origId + "_part" + NatToString(n)
  }

  /** Distinct parts of one document get distinct ids. */
  lemma PartIdsDistinct(origId: string, m: nat, n: nat)
    requires m != n
    ensures PartId(origId, m) != PartId(origId, n)
  {
    if PartId(origId, m) == PartId(origId, n) {
      var k := |origId + "_part"|;
      assert NatToString(m) == PartId(origId, m)[k..];
      assert NatToString(n) == PartId(origId, n)[k..];
      NatToStringInjective(m, n);
    }
  }

  /** createSplitMetadata without its timestamp: the original metadata plus
      the original id and the part number; every other key is unchanged. */
  function SplitMetadata(meta: map<string, Meta>, origId: string, n: nat): (r: map<string, Meta>)
    ensures r.Keys == meta.Keys + {"original_document_id", "part_number"}
    ensures r["original_document_id"] == Text(origId) && r["part_number"] == Number(n)
    ensures forall k :: k in meta && k != "original_document_id" && k != "part_number" ==> r[k] == meta[k]
  {
    meta["original_document_id" := Text(origId)]["part_number" := Number(n)]
  }

  /** Part `n` (from 1) of a document whose content split into `parts`. */
  function Part(doc: Document, parts: seq<string>, n: nat): Document
    requires 1 <= n <= |parts|
  {
    Document(PartId(doc.id, n), parts[n - 1], doc.media, SplitMetadata(doc.metadata, doc.id, n))
  }

  /** splitDocument: one document per part, numbered from 1; joined, their
      contents give back the original. */
  function SplitDocument(doc: Document): (r: seq<Document>)
    ensures Joined(r) == doc.content
    ensures forall i :: 0 <= i < |r| ==> 0 < |r[i].content| <= MaxLength + 1
  {
    var parts := SplitContent(doc.content, 0);
    var r := seq(|parts|, i requires 0 <= i < |parts| => Part(doc, parts, i + 1));
    JoinedIsConcat(r, parts);
    r
  }

  /** Part i + 1 keeps the media, is named `<id>_part<i + 1>` and carries the
      original id and its number in its metadata. */
  lemma SplitDocumentPart(doc: Document, i: nat)
    requires i < |SplitDocument(doc)|
    ensures var p := SplitDocument(doc)[i];
            && p.id == PartId(doc.id, i + 1)
            && p.media == doc.media
            && p.metadata == SplitMetadata(doc.metadata, doc.id, i + 1)
            && p.metadata["original_document_id"] == Text(doc.id)
            && p.metadata["part_number"] == Number(i + 1)
  {
  }

  /** The replacement of one input document: itself when short enough,
      otherwise its parts. */
  function Replacement(doc: Document): (r: seq<Document>)
    ensures Joined(r) == doc.content
    ensures forall i :: 0 <= i < |r| ==> |r[i].content| <= MaxLength + 1
  {
    if |doc.content| <= MaxLength then
      assert Joined([doc]) == doc.content + Joined([]);
      [doc]
    else SplitDocument(doc)
  }

  /** Every document of `docs` replaced in place by `f` of it. */
  function FlatMap(f: Document -> seq<Document>, docs: seq<Document>): seq<Document>
    decreases |docs|
  {
    if |docs| == 0 then [] else f(docs[0]) + FlatMap(f, docs[1..])
  }

  lemma {:induction false} FlatMapAdd(f: Document -> seq<Document>, a: seq<Document>, b: seq<Document>)
    ensures FlatMap(f, a + b) == FlatMap(f, a) + FlatMap(f, b)
    decreases |a|
  {
    if |a| == 0 {
      assert a + b == b;
    } else {
      assert (a + b)[0] == a[0] && (a + b)[1..] == a[1..] + b;
      FlatMapAdd(f, a[1..], b);
    }
  }

  /** The replacements of a list keep its joined text, and no replacement
      is longer than MaxLength + 1. */
  lemma {:induction false} ReplacementsKeepText(docs: seq<Document>)
    ensures Joined(FlatMap(Replacement, docs)) == Joined(docs)
    ensures forall i :: 0 <= i < |FlatMap(Replacement, docs)| ==> |FlatMap(Replacement, docs)[i].content| <= MaxLength + 1
    decreases |docs|
  {
    if |docs| > 0 {
      var first := Replacement(docs[0]);
      var rest := FlatMap(Replacement, docs[1..]);
      assert FlatMap(Replacement, docs) == first + rest;
      ReplacementsKeepText(docs[1..]);
      JoinedAdd(first, rest);
    }
  }

  /** splitLargeDocuments: the joined contents of the output are those of
      the input, and no output document is longer than MaxLength + 1. */
  function SplitLargeDocuments(docs: seq<Document>): (r: seq<Document>)
    ensures Joined(r) == Joined(docs)
    ensures forall i :: 0 <= i < |r| ==> |r[i].content| <= MaxLength + 1
  {
    ReplacementsKeepText(docs);
    FlatMap(Replacement, docs)
  }

  /** Output order follows input order: each input document is replaced in
      place by its replacement. */
  lemma SplitLargeDocumentsInPlace(a: seq<Document>, b: seq<Document>)
    ensures SplitLargeDocuments(a + b) == SplitLargeDocuments(a) + SplitLargeDocuments(b)
  {
    FlatMapAdd(Replacement, a, b);
  }

  /** Documents within MaxLength pass through unchanged. */
  lemma {:induction false} ShortDocumentsUnchanged(docs: seq<Document>)
    requires forall i :: 0 <= i < |docs| ==> |docs[i].content| <= MaxLength
    ensures SplitLargeDocuments(docs) == docs
    decreases |docs|
  {
    if |docs| > 0 {
      ShortDocumentsUnchanged(docs[1..]);
      assert docs == [docs[0]] + docs[1..];
    }
  }
}
