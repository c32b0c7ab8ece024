/** The byte stream a consumer hashes. Strings stand for byte strings: one character a byte. */
module DigestFraming {
  import opened Sequences
  import opened Wrappers

  datatype Document = Document(path: string, bytes: string)

  datatype Summary = Summary(documents: nat, logicalBytes: nat, hashed: string)

  /** `to_le_bytes`, to the given width. */
  function LeBytes(n: nat, width: nat): (r: string)
    ensures |r| == width
  {
    if width == 0 then "" else [(n % 256) as char] + LeBytes(n / 256, width - 1)
  }

  function LeValue(s: string): nat {
    if s == "" then 0 else s[0] as int + 256 * LeValue(s[1..])
  }

  function Pow256(k: nat): nat {
    if k == 0 then 1 else 256 * Pow256(k - 1)
  }

  lemma {:induction false} LeRoundTrip(n: nat, width: nat)
    requires n < Pow256(width)
    ensures LeValue(LeBytes(n, width)) == n
  {
    if width > 0 {
      LeRoundTrip(n / 256, width - 1);
      assert LeBytes(n, width)[1..] == LeBytes(n / 256, width - 1);
    }
  }

  /** A length fits its eight-byte prefix. */
  predicate FitsU64(n: nat) {
    n < Pow256(8)
  }

  predicate Framable(d: Document) {
    FitsU64(|d.path|) && FitsU64(|d.bytes|)
  }

  function Field(s: string): string {
    LeBytes(|s|, 8) + s
  }

  function Frame(d: Document): string {
    Field(d.path) + Field(d.bytes)
  }

  function Frames(docs: seq<Document>): string {
    if docs == [] then "" else Frames(docs[..|docs| - 1]) + Frame(docs[|docs| - 1])
  }

  function TotalBytes(docs: seq<Document>): nat {
    if docs == [] then 0 else TotalBytes(docs[..|docs| - 1]) + |docs[|docs| - 1].bytes|
  }

  function Summarise(docs: seq<Document>): Summary {
    Summary(|docs|, TotalBytes(docs), Frames(docs))
  }

  // ---- reading the stream back ----

  function TakeField(s: string): (r: Option<(string, string)>)
    ensures r.Some? ==> |r.value.1| < |s|
  {
    if |s| < 8 then None
    else
      var n := LeValue(s[..8]);
      if |s| - 8 < n then None else Some((s[8..8 + n], s[8 + n..]))
  }

  function Unframe(s: string): Option<seq<Document>>
    decreases |s|
  {
    if s == "" then Some([])
    else
      match TakeField(s)
      case None => None
      case Some((path, rest)) =>
        match TakeField(rest)
        case None => None
        case Some((bytes, rest)) =>
          match Unframe(rest)
          case None => None
          case Some(docs) => Some([Document(path, bytes)] + docs)
  }

  lemma FieldReadsBack(s: string, rest: string)
    requires FitsU64(|s|)
    ensures TakeField(Field(s) + rest) == Some((s, rest)) && Field(s) + rest != ""
  {
    var whole := Field(s) + rest;
    assert whole[..8] == LeBytes(|s|, 8);
    LeRoundTrip(|s|, 8);
    assert whole[8..8 + |s|] == s;
    assert whole[8 + |s|..] == rest;
  }

  lemma {:induction false} FramesCons(d: Document, docs: seq<Document>)
    ensures Frames([d] + docs) == Frame(d) + Frames(docs)
  {
    hide Frame;
    if docs == [] {
      assert [d] + docs == [d];
      assert Frames([d]) == Frames([]) + Frame(d);
    } else {
      var last := docs[|docs| - 1];
      assert ([d] + docs)[..|docs|] == [d] + docs[..|docs| - 1];
      FramesCons(d, docs[..|docs| - 1]);
      assert Frames([d] + docs) == (Frame(d) + Frames(docs[..|docs| - 1])) + Frame(last);
    }
  }

  lemma UnframeStep(d: Document, rest: string, docs: seq<Document>)
    requires Framable(d) && Unframe(rest) == Some(docs)
    ensures Unframe(Frame(d) + rest) == Some([d] + docs)
  {
    hide LeBytes, LeValue, Pow256, FitsU64, Field, TakeField;
    var tail, whole := Field(d.bytes) + rest, Frame(d) + rest;
    FieldReadsBack(d.path, tail);
    FieldReadsBack(d.bytes, rest);
    assert whole == Field(d.path) + tail;
  }

  /** The stream decodes to the documents that were framed. */
  lemma {:induction false} FramesReadBack(docs: seq<Document>)
    requires forall d :: d in docs ==> Framable(d)
    ensures Unframe(Frames(docs)) == Some(docs)
  {
    if docs != [] {
      var d, rest := docs[0], docs[1..];
      assert docs == [d] + rest;
      FramesReadBack(rest);
      FramesCons(d, rest);
      UnframeStep(d, Frames(rest), rest);
    }
  }

  /** Equal streams come only from equal document sequences. */
  lemma FramesIdentify(a: seq<Document>, b: seq<Document>)
    requires forall d :: d in a || d in b ==> Framable(d)
    ensures Frames(a) == Frames(b) <==> a == b
  {
    FramesReadBack(a);
    FramesReadBack(b);
  }

  /** Feeding a document piece by piece feeds its frame. */
  lemma FedOneMore(docs: seq<Document>, d: Document)
    ensures Summarise(docs + [d]) == Summary(Summarise(docs).documents + 1, Summarise(docs).logicalBytes + |d.bytes|,
      Summarise(docs).hashed + LeBytes(|d.path|, 8) + d.path + LeBytes(|d.bytes|, 8) + d.bytes)
  {
    hide LeBytes;
    assert (docs + [d])[..|docs|] == docs;
    assert Frames(docs + [d]) == Frames(docs) + Frame(d);
    FrameInPieces(Frames(docs), LeBytes(|d.path|, 8), d.path, LeBytes(|d.bytes|, 8), d.bytes);
  }

  lemma FrameInPieces(before: string, a: string, path: string, b: string, bytes: string)
    ensures before + ((a + path) + (b + bytes)) == before + a + path + b + bytes
  {
    hide *;
    ConcatAssociates(before, a, path);
    ConcatAssociates(before, a + path, b + bytes);
    ConcatAssociates(before + (a + path), b, bytes);
  }

  /** One consumer's running digest. */
  class ConsumerDigest {
    var hashed: string
    var documents: nat
    var logicalBytes: nat
    ghost var consumed: seq<Document>

    ghost predicate Valid()
      reads this
    {
      Summary(documents, logicalBytes, hashed) == Summarise(consumed)
    }

    constructor ()
      ensures Valid() && consumed == []
    {
      hashed, documents, logicalBytes := "", 0, 0;
      consumed := [];
    }

    method Consume(path: string, bytes: string)
      requires Valid()
      modifies this
      ensures Valid() && consumed == old(consumed) + [Document(path, bytes)]
    {
      hide Summarise, LeBytes, Field;
      FedOneMore(consumed, Document(path, bytes));
      hashed := hashed + LeBytes(|path|, 8);
      hashed := hashed + path;
      hashed := hashed + LeBytes(|bytes|, 8);
      hashed := hashed + bytes;
      documents := documents + 1;
      logicalBytes := logicalBytes + |bytes|;
      consumed := consumed + [Document(path, bytes)];
    }

    method Finish() returns (summary: Summary)
      requires Valid()
      ensures summary == Summarise(consumed)
    {
      summary := Summary(documents, logicalBytes, hashed);
    }
  }
}
