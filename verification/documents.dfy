/** Spring AI's Document as the ingestion code uses it. */
module Documents {

  /** A metadata value: the code stores strings and integers. */
  datatype Meta = Text(text: string) | Number(n: int)

  /** `media` stands for the document's media list, copied unchanged by the
      splitter; its elements are not inspected. */
  datatype Document = Document(id: string, content: string, media: seq<string>, metadata: map<string, Meta>)

  /** The strings of a list of parts, joined in order. */
  function Concat(parts: seq<string>): string
    decreases |parts|
  {
    if |parts| == 0 then [] else parts[0] + Concat(parts[1..])
  }

  lemma {:induction false} ConcatAdd(a: seq<string>, b: seq<string>)
    ensures Concat(a + b) == Concat(a) + Concat(b)
    decreases |a|
  {
    if |a| == 0 {
      assert a + b == b;
    } else {
      assert (a + b)[1..] == a[1..] + b;
      ConcatAdd(a[1..], b);
    }
  }

  /** The contents of a list of documents, joined in order. */
  function Joined(docs: seq<Document>): string
    decreases |docs|
  {
    if |docs| == 0 then [] else docs[0].content + Joined(docs[1..])
  }

  /** Joining documents is joining their contents. */
  lemma {:induction false} JoinedIsConcat(docs: seq<Document>, parts: seq<string>)
    requires |docs| == |parts|
    requires forall i :: 0 <= i < |docs| ==> docs[i].content == parts[i]
    ensures Joined(docs) == Concat(parts)
    decreases |docs|
  {
    if |docs| > 0 {
      JoinedIsConcat(docs[1..], parts[1..]);
    }
  }

  lemma {:induction false} JoinedAdd(a: seq<Document>, b: seq<Document>)
    ensures Joined(a + b) == Joined(a) + Joined(b)
    decreases |a|
  {
    if |a| == 0 {
      assert a + b == b;
    } else {
      assert (a + b)[1..] == a[1..] + b;
      JoinedAdd(a[1..], b);
    }
  }
}
