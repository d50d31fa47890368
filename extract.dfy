/**
 * Plain-text extraction from the child blocks of a document page: keep the
 * paragraph blocks whose `rich_text` is an array, join each one's fragments'
 * `plain_text` values with no separator, and drop the empty results.
 */
module BlockExtract {
  import opened Js

  /** One rich-text fragment; `plainText` is `None` when `plain_text` is undefined or null. */
  datatype Fragment = Fragment(plainText: Option<string>)

  /** The `rich_text` field of a paragraph payload: an array of fragments, or anything else. */
  datatype RichText = NotArray | Fragments(parts: seq<Fragment>)

  /**
   * The `paragraph` field of a block. `Nullish` stands for undefined or null, on which
   * reading `rich_text` throws; any other value is a `Payload` whose `rich_text` may
   * still be missing, which is `NotArray`.
   */
  datatype Paragraph = Nullish | Payload(richText: RichText)

  /** A child block: its `type` tag (`None` when it is not a string) and its `paragraph` field. */
  datatype Block = Block(kind: Option<string>, paragraph: Paragraph)

  const PARAGRAPH_KIND: string := "paragraph"

  predicate IsParagraph(b: Block)
  {
    b.kind == Some(PARAGRAPH_KIND)
  }

  /** Evaluating the filter test on `b` throws: a paragraph block without a paragraph object. */
  predicate Throws(b: Block)
  {
    IsParagraph(b) && b.paragraph.Nullish?
  }

  /** The filter test holds of `b`: a paragraph block whose `rich_text` is an array. */
  predicate Qualifies(b: Block)
  {
    IsParagraph(b) && b.paragraph.Payload? && b.paragraph.richText.Fragments?
  }

  predicate NoneThrows(bs: seq<Block>)
  {
    forall i | 0 <= i < |bs| :: !Throws(bs[i])
  }

  predicate AllQualify(bs: seq<Block>)
  {
    forall i | 0 <= i < |bs| :: Qualifies(bs[i])
  }

  /** The short-circuiting filter test: the other fields are read only for a paragraph block. */
  function KeepTest(b: Block): (r: Result<bool>)
    ensures r == Error <==> Throws(b)
    ensures r == Ok(true) <==> Qualifies(b)
  {
    if !IsParagraph(b) then Ok(false)
    else match b.paragraph
      case Nullish => Error
      case Payload(rt) => Ok(rt.Fragments?)
  }

  /** The first `filter`: the qualifying blocks in order, or an error if any block throws. */
  function KeepParagraphs(bs: seq<Block>): (r: Result<seq<Block>>)
    ensures r.Ok? <==> NoneThrows(bs)
    ensures r.Ok? ==> |r.value| <= |bs| && AllQualify(r.value)
  {
    if bs == [] then Ok([])
    else
      match KeepTest(bs[0])
      case Error => Error
      case Ok(keep) =>
        match KeepParagraphs(bs[1..])
        case Error => Error
        case Ok(rest) => Ok(if keep then [bs[0]] + rest else rest)
  }

  /** What `Array.prototype.join` contributes for one fragment: undefined and null give "". */
  function PlainText(f: Fragment): string
  {
    match f.plainText
    case None => ""
    case Some(s) => s
  }

  /** `parts.map(p => p.plain_text).join('')`. */
  function JoinPlain(parts: seq<Fragment>): (r: string)
    ensures parts != [] ==> PlainText(parts[0]) <= r
    ensures forall k | 0 <= k < |parts| :: |PlainText(parts[k])| <= |r|
  {
    if parts == [] then "" else PlainText(parts[0]) + JoinPlain(parts[1..])
  }

  /** The text of one qualifying block. */
  function BlockText(b: Block): string
    requires Qualifies(b)
  {
    JoinPlain(b.paragraph.richText.parts)
  }

  /** The `map` stage: one text per kept block. */
  function Texts(kept: seq<Block>): (r: seq<string>)
    requires AllQualify(kept)
    ensures |r| == |kept|
    ensures forall k | 0 <= k < |r| :: r[k] == BlockText(kept[k])
  {
    if kept == [] then [] else [BlockText(kept[0])] + Texts(kept[1..])
  }

  /** The last `filter`: the non-empty texts, in order. */
  function NonEmpty(ts: seq<string>): (r: seq<string>)
    ensures |r| <= |ts|
    ensures forall k | 0 <= k < |r| :: |r[k]| > 0
    ensures forall k | 0 <= k < |r| :: r[k] in ts
  {
    if ts == [] then []
    else (if |ts[0]| > 0 then [ts[0]] else []) + NonEmpty(ts[1..])
  }

  /** The whole extraction pipeline of the page handler. */
  function Extract(bs: seq<Block>): (r: Result<seq<string>>)
    ensures r.Ok? <==> NoneThrows(bs)
    ensures r.Ok? ==> |r.value| <= |bs|
    ensures r.Ok? ==> forall k | 0 <= k < |r.value| :: |r.value[k]| > 0
  {
    match KeepParagraphs(bs)
    case Error => Error
    case Ok(kept) => Ok(NonEmpty(Texts(kept)))
  }

  // ---------------------------------------------------------------------------
  // Reference view: what each block contributes on its own.
  // ---------------------------------------------------------------------------

  /** A block contributes to the output: it qualifies and its text is not empty. */
  predicate Contributes(b: Block)
  {
    Qualifies(b) && BlockText(b) != ""
  }

  /** The output a single non-throwing block gives on its own. */
  function Contribution(b: Block): seq<string>
  {
    if Contributes(b) then [BlockText(b)] else []
  }

  /** Both halves succeed and their outputs are concatenated, or the whole fails. */
  function Concat<T>(x: Result<seq<T>>, y: Result<seq<T>>): Result<seq<T>>
  {
    if x.Ok? && y.Ok? then Ok(x.value + y.value) else Error
  }

  /** The indices of the contributing blocks, in increasing order. */
  function Sources(bs: seq<Block>): seq<nat>
  {
    if bs == [] then []
    else Sources(bs[..|bs| - 1]) + (if Contributes(bs[|bs| - 1]) then [|bs| - 1] else [])
  }

  // ---------------------------------------------------------------------------
  // Lemmas about the fragments' join.
  // ---------------------------------------------------------------------------

  lemma {:induction false} JoinPlainAppend(a: seq<Fragment>, b: seq<Fragment>)
    ensures JoinPlain(a + b) == JoinPlain(a) + JoinPlain(b)
  {
    if a == [] {
      assert a + b == b;
    } else {
      assert (a + b)[1..] == a[1..] + b;
      JoinPlainAppend(a[1..], b);
    }
  }

  /** A joined text is empty exactly when every fragment's text is missing or empty. */
  lemma {:induction false} JoinPlainEmpty(parts: seq<Fragment>)
    ensures JoinPlain(parts) == "" <==> forall i | 0 <= i < |parts| :: PlainText(parts[i]) == ""
  {
    if parts != [] {
      JoinPlainEmpty(parts[1..]);
      if JoinPlain(parts) == "" {
        assert PlainText(parts[0]) == "";
      }
      assert forall i | 1 <= i < |parts| :: parts[i] == parts[1..][i - 1];
    }
  }

  /** Fragment `i`'s text sits in the joined text right after the texts of fragments `0..i-1`. */
  lemma {:induction false} JoinPlainAt(parts: seq<Fragment>, i: nat)
    requires i < |parts|
    ensures JoinPlain(parts) == JoinPlain(parts[..i]) + PlainText(parts[i]) + JoinPlain(parts[i + 1..])
  {
    assert parts == parts[..i] + [parts[i]] + parts[i + 1..];
    JoinPlainAppend(parts[..i] + [parts[i]], parts[i + 1..]);
    JoinPlainAppend(parts[..i], [parts[i]]);
    assert JoinPlain([parts[i]]) == PlainText(parts[i]) + JoinPlain([]);
  }

  // ---------------------------------------------------------------------------
  // Lemmas about the pipeline.
  // ---------------------------------------------------------------------------

  /** The first filter keeps only input blocks, and keeps every qualifying one. */
  lemma {:induction false} KeepParagraphsKeeps(bs: seq<Block>)
    requires NoneThrows(bs)
    ensures forall k | 0 <= k < |KeepParagraphs(bs).value| :: KeepParagraphs(bs).value[k] in bs
    ensures forall i | 0 <= i < |bs| && Qualifies(bs[i]) :: bs[i] in KeepParagraphs(bs).value
  {
    if bs != [] {
      assert NoneThrows(bs[1..]) by {
        forall i | 0 <= i < |bs[1..]| ensures !Throws(bs[1..][i]) { assert bs[1..][i] == bs[i + 1]; }
      }
      KeepParagraphsKeeps(bs[1..]);
      var rest := KeepParagraphs(bs[1..]).value;
      var r := KeepParagraphs(bs).value;
      assert r == if Qualifies(bs[0]) then [bs[0]] + rest else rest;
      forall k | 0 <= k < |r| ensures r[k] in bs {
        if Qualifies(bs[0]) && k == 0 { assert r[k] == bs[0]; }
        else {
          var j := if Qualifies(bs[0]) then k - 1 else k;
          assert r[k] == rest[j] && rest[j] in bs[1..];
        }
      }
      forall i | 0 <= i < |bs| && Qualifies(bs[i]) ensures bs[i] in r {
        if i > 0 { assert bs[i] == bs[1..][i - 1]; }
      }
    }
  }

  /** The last filter keeps every non-empty text. */
  lemma {:induction false} NonEmptyKeeps(ts: seq<string>)
    ensures forall i | 0 <= i < |ts| && |ts[i]| > 0 :: ts[i] in NonEmpty(ts)
  {
    if ts != [] {
      NonEmptyKeeps(ts[1..]);
      forall i | 0 <= i < |ts| && |ts[i]| > 0 ensures ts[i] in NonEmpty(ts) {
        if i > 0 { assert ts[i] == ts[1..][i - 1]; }
      }
    }
  }

  lemma {:induction false} KeepParagraphsAppend(a: seq<Block>, b: seq<Block>)
    ensures KeepParagraphs(a + b) == Concat(KeepParagraphs(a), KeepParagraphs(b))
  {
    if a == [] {
      assert a + b == b;
      if KeepParagraphs(b).Ok? { assert [] + KeepParagraphs(b).value == KeepParagraphs(b).value; }
    } else {
      assert (a + b)[0] == a[0];
      assert (a + b)[1..] == a[1..] + b;
      KeepParagraphsAppend(a[1..], b);
      var ka, kb := KeepParagraphs(a[1..]), KeepParagraphs(b);
      if KeepTest(a[0]).Ok? && ka.Ok? && kb.Ok? {
        assert [a[0]] + ka.value + kb.value == [a[0]] + (ka.value + kb.value);
      }
    }
  }

  lemma {:induction false} TextsAppend(a: seq<Block>, b: seq<Block>)
    requires AllQualify(a) && AllQualify(b)
    ensures AllQualify(a + b)
    ensures Texts(a + b) == Texts(a) + Texts(b)
  {
  }

  lemma {:induction false} NonEmptyAppend(a: seq<string>, b: seq<string>)
    ensures NonEmpty(a + b) == NonEmpty(a) + NonEmpty(b)
  {
    if a == [] {
      assert a + b == b;
    } else {
      assert (a + b)[0] == a[0];
      assert (a + b)[1..] == a[1..] + b;
      NonEmptyAppend(a[1..], b);
    }
  }

  /** Extraction distributes over concatenation of block lists (and so preserves order). */
  lemma ExtractAppend(a: seq<Block>, b: seq<Block>)
    ensures Extract(a + b) == Concat(Extract(a), Extract(b))
  {
    KeepParagraphsAppend(a, b);
    var ka, kb := KeepParagraphs(a), KeepParagraphs(b);
    if ka.Ok? && kb.Ok? {
      TextsAppend(ka.value, kb.value);
      NonEmptyAppend(Texts(ka.value), Texts(kb.value));
    }
  }

  /** A single block throws, or gives exactly its own contribution. */
  lemma ExtractSingle(b: Block)
    ensures Extract([b]) == if Throws(b) then Error else Ok(Contribution(b))
  {
    assert [b][1..] == [];
    if Qualifies(b) {
      assert Texts([b]) == [BlockText(b)];
    }
  }

  /** A block that is not a paragraph never contributes and never fails, wherever it stands. */
  lemma NonParagraphIgnored(a: seq<Block>, b: Block, c: seq<Block>)
    requires !IsParagraph(b)
    ensures Extract(a + [b] + c) == Extract(a + c)
  {
    ExtractAppend(a + [b], c);
    ExtractAppend(a, [b]);
    ExtractSingle(b);
    ExtractAppend(a, c);
    if Extract(a).Ok? {
      assert Extract(a).value + [] == Extract(a).value;
    }
  }

  /** `texts` is the output for `bs` when block `src[k]` gives text `k` and every contributing block is listed. */
  predicate IndexedBy(bs: seq<Block>, texts: seq<string>, src: seq<nat>)
  {
    && |texts| == |src|
    && (forall k | 0 <= k < |src| :: src[k] < |bs| && Contributes(bs[src[k]]) && texts[k] == BlockText(bs[src[k]]))
    && (forall k, l | 0 <= k < l < |src| :: src[k] < src[l])
    && (forall i | 0 <= i < |bs| && Contributes(bs[i]) :: i in src)
  }

  /** Appending one block extends an indexing by that block's own contribution. */
  lemma IndexedBySnoc(init: seq<Block>, last: Block, texts: seq<string>, src: seq<nat>)
    requires IndexedBy(init, texts, src)
    ensures IndexedBy(init + [last], texts + Contribution(last), src + (if Contributes(last) then [|init|] else []))
  {
    var bs, n := init + [last], |init|;
    var c := Contribution(last);
    var tail: seq<nat> := if Contributes(last) then [n] else [];
    var e, ix := texts + c, src + tail;
    assert |c| == |tail|;
    forall k | 0 <= k < |ix|
      ensures ix[k] < |bs| && Contributes(bs[ix[k]]) && e[k] == BlockText(bs[ix[k]])
    {
      if k < |src| {
        assert ix[k] == src[k] && e[k] == texts[k];
        assert bs[src[k]] == init[src[k]];
      } else {
        assert ix[k] == n && e[k] == BlockText(last) && bs[n] == last;
      }
    }
    forall k, l | 0 <= k < l < |ix| ensures ix[k] < ix[l] {
      if l >= |src| {
        assert ix[l] == n && ix[k] == src[k] && src[k] < |init|;
      } else {
        assert ix[k] == src[k] && ix[l] == src[l];
      }
    }
    forall i | 0 <= i < |bs| && Contributes(bs[i]) ensures i in ix {
      if i < n { assert bs[i] == init[i]; assert i in src; } else { assert i in tail; }
    }
  }

  /** Output position `k` holds the text of block `Sources(bs)[k]`. */
  lemma {:induction false} ExtractSources(bs: seq<Block>)
    requires NoneThrows(bs)
    ensures |Extract(bs).value| == |Sources(bs)|
    ensures forall k | 0 <= k < |Sources(bs)| ::
      Sources(bs)[k] < |bs| && Contributes(bs[Sources(bs)[k]]) &&
      Extract(bs).value[k] == BlockText(bs[Sources(bs)[k]])
    ensures forall k, l | 0 <= k < l < |Sources(bs)| :: Sources(bs)[k] < Sources(bs)[l]
    ensures forall i | 0 <= i < |bs| && Contributes(bs[i]) :: i in Sources(bs)
  {
    if bs == [] {
      assert IndexedBy(bs, [], []);
    } else {
      var n := |bs| - 1;
      var init, last := bs[..n], bs[n];
      assert bs == init + [last];
      assert NoneThrows(init) by {
        forall i | 0 <= i < |init| ensures !Throws(init[i]) { assert init[i] == bs[i]; }
      }
      ExtractSources(init);
      ExtractAppend(init, [last]);
      ExtractSingle(last);
      assert Extract(bs).value == Extract(init).value + Contribution(last);
      IndexedBySnoc(init, last, Extract(init).value, Sources(init));
      assert IndexedBy(bs, Extract(bs).value, Sources(bs));
    }
  }

  /** The fragments "Hello, " and "world" join to "Hello, world". */
  lemma HelloWorldJoin()
    ensures JoinPlain([Fragment(Some("Hello, ")), Fragment(Some("world"))]) == "Hello, world"
  {
    var parts := [Fragment(Some("Hello, ")), Fragment(Some("world"))];
    assert parts[1..] == [Fragment(Some("world"))] && [Fragment(Some("world"))][1..] == [];
  }

  /** The first filter drops a heading and keeps the two paragraph blocks after it. */
  lemma ScenarioKeep(heading: Block, hello: Block, empty: Block)
    requires heading == Block(Some("heading_1"), Nullish)
    requires hello == Block(Some(PARAGRAPH_KIND), Payload(Fragments([Fragment(Some("Hello, ")), Fragment(Some("world"))])))
    requires empty == Block(Some(PARAGRAPH_KIND), Payload(Fragments([])))
    ensures KeepParagraphs([heading, hello, empty]) == Ok([hello, empty])
  {
    assert KeepTest(empty) == Ok(true) && KeepTest(hello) == Ok(true) && KeepTest(heading) == Ok(false);
    assert [empty][1..] == [] && [hello, empty][1..] == [empty] && [heading, hello, empty][1..] == [hello, empty];
    assert KeepParagraphs([empty]) == Ok([empty]) by { assert [empty] + [] == [empty]; }
    assert KeepParagraphs([hello, empty]) == Ok([hello, empty]) by { assert [hello] + [empty] == [hello, empty]; }
  }

  /** A heading, a two-fragment paragraph and an empty paragraph give one text. */
  lemma ScenarioHelloWorld()
    ensures Extract([
      Block(Some("heading_1"), Nullish),
      Block(Some(PARAGRAPH_KIND), Payload(Fragments([Fragment(Some("Hello, ")), Fragment(Some("world"))]))),
      Block(Some(PARAGRAPH_KIND), Payload(Fragments([])))
    ]) == Ok(["Hello, world"])
  {
    var heading := Block(Some("heading_1"), Nullish);
    var hello := Block(Some(PARAGRAPH_KIND), Payload(Fragments([Fragment(Some("Hello, ")), Fragment(Some("world"))])));
    var empty := Block(Some(PARAGRAPH_KIND), Payload(Fragments([])));
    ScenarioKeep(heading, hello, empty);
    HelloWorldJoin();
    assert Texts([hello, empty]) == ["Hello, world", ""];
    assert NonEmpty(["Hello, world", ""]) == ["Hello, world"] by {
      assert ["Hello, world", ""][1..] == [""] && [""][1..] == [];
    }
  }
}
