/** Whole-document consequences of the code as written, worked through the model. */
module Scenarios {
  import opened Dom
  import opened Items
  import opened Merge
  import Collection
  import Rendering
  import InnerText
  import Whitespace

  /** The merge loop has no final flush, so the outer element loses a text run that ends
      its list: for an inline element holding a rendered br and then a text, such as
      `<span><br>tail</span>`, the inner text is a single line feed and the text is gone. */
  lemma {:induction false} OuterInlineLosesTrailingText(n: Node, br: Node, t: string)
    requires n.Element? && !Rendering.IsBlockLevel(n.tag) && Lower(n.tag) !in {"br", "p", "img", "caption"}
    requires n.children == [br, Text(t)]
    requires br.Element? && Lower(br.tag) == "br" && Rendering.IsBeingRendered(br.tag, br.attrs, Some(n.tag))
    ensures InnerText.InnerTextOf(n) == "\n"
  {
    BreakThenTextItems(n, br, t);
    NestedBreakText();
  }

  /** The items of such an element: its own markers around the br's block; the text after
      the br was pending when the loop ended. */
  lemma {:induction false} BreakThenTextItems(n: Node, br: Node, t: string)
    requires n.Element? && !Rendering.IsBlockLevel(n.tag) && Lower(n.tag) !in {"br", "p", "img", "caption"}
    requires n.children == [br, Text(t)]
    requires br.Element? && Lower(br.tag) == "br" && Rendering.IsBeingRendered(br.tag, br.attrs, Some(n.tag))
    ensures Collection.Collect(n, true, false, None) == [BStart] + LineBlock + [BEnd]
  {
    var pre' := Lower(n.tag) in Collection.PreTags;
    var f := RunFlush(pre');
    assert Collection.CollectChildren(n.children, pre', n.tag) == LineBlock + [Str(t)] by {
      BreakThenTextChildren(n.children, br, t, pre', n.tag);
    }
    assert Scan(LineBlock + [Str(t)], None, 0, f) == LineBlock by {
      ScanBlockThenText(t, f);
    }
    Collection.CollectOuterInline(n.tag, n.attrs, n.children, false, None);
  }

  /** What a rendered br contributes. */
  const LineBlock: seq<Item> := [BStart, Str("\n"), BEnd]

  lemma {:induction false} BreakThenTextChildren(cs: seq<Node>, br: Node, t: string, pre: bool, tag: string)
    requires cs == [br, Text(t)]
    requires br.Element? && Lower(br.tag) == "br" && Rendering.IsBeingRendered(br.tag, br.attrs, Some(tag))
    ensures Collection.CollectChildren(cs, pre, tag) == LineBlock + [Str(t)]
  {
    assert Collection.Collect(br, false, pre, Some(tag)) == LineBlock by {
      Collection.Leaves(br, false, pre, Some(tag));
    }
    assert cs[..1] == [br] && [br][..0] == [];
    assert Collection.CollectChildren(cs[..1], pre, tag) == LineBlock;
  }

  /** The loop copies the br's block and holds the text pending until the list ends. */
  lemma {:induction false} ScanBlockThenText(t: string, f: string -> string)
    ensures Scan(LineBlock + [Str(t)], None, 0, f) == LineBlock
  {
    assert LineBlock == [BStart] + [Str("\n")] + [BEnd];
    ScanFlatScope([Str("\n")], [Str(t)], f);
    assert Scan([Str(t)], None, 0, f) == [] by {
      ScanFromString([Str(t)], f);
    }
  }

  /** Steps 3 to 6 on those items: the markers go and the line feed is what is left. */
  lemma {:induction false} NestedBreakText()
    ensures InnerText.Concat(InnerText.Expand(InnerText.StripEnds(InnerText.DropEmpty(
              [BStart] + LineBlock + [BEnd])), 0)) == "\n"
  {
    var lead := [BStart, BStart];
    var mid := [Str("\n")];
    var trail := [BEnd, BEnd];
    var all := [BStart] + LineBlock + [BEnd];
    assert all == lead + mid + trail;
    assert InnerText.DropEmpty(all) == all by {
      InnerText.DropEmptyUnchanged(all);
    }
    assert InnerText.StripEnds(all) == mid by {
      InnerText.StripEndsFrame(lead, mid, trail);
    }
    OneStringText("\n");
  }

  /** Steps 5 and 6 on a single string give that string. */
  lemma {:induction false} OneStringText(s: string)
    ensures InnerText.Concat(InnerText.Expand([Str(s)], 0)) == s
  {
    assert InnerText.Expand([Str(s)], 0) == [s] + InnerText.Expand([], 0);
    assert InnerText.Concat([s]) == s + InnerText.Concat([]);
  }

  /** A div holding two rendered paragraphs renders them one line feed apart, not two: each
      p carries a break count of 1 for the paragraph and 1 for being block level, and the
      run between the texts becomes max(1, 1, 1, 1) line feeds. */
  lemma {:induction false} ParagraphsOneLineFeedApart(div: Node, t1: string, t2: string)
    requires div.Element? && Lower(div.tag) == "div" && |div.children| == 2
    requires IsParagraphOf(div.children[0], t1, div.tag) && IsParagraphOf(div.children[1], t2, div.tag)
    requires t1 != "" && t2 != ""
    ensures InnerText.InnerTextOf(div) == t1 + "\n" + t2
  {
    DivCollect(div, t1, t2);
    DivItemsText(t1, t2);
  }

  /** `p` is a rendered p element whose only child is the collapsed text t. */
  predicate IsParagraphOf(p: Node, t: string, parentTag: string)
  {
    p.Element? && Lower(p.tag) == "p" && p.children == [Text(t)] &&
    Rendering.IsBeingRendered(p.tag, p.attrs, Some(parentTag)) && Whitespace.Collapsed(t)
  }

  /** A paragraph's items around its text: the merge pass's marker, then the break count
      added for the paragraph and the one added for being block level. */
  const Open: seq<Item> := [BStart, Brk(1), Brk(1)]
  const Close: seq<Item> := [Brk(1), Brk(1), BEnd]

  /** The items of a rendered p holding one collapsed text. */
  function ParagraphItems(t: string): seq<Item>
  {
    Open + [Str(t)] + Close
  }

  /** The items of a div holding two such paragraphs, when innerText is asked about it. */
  function DivItems(t1: string, t2: string): seq<Item>
  {
    [BStart] + ([Brk(1)] + ParagraphItems(t1) + ParagraphItems(t2) + [Brk(1)]) + [BEnd]
  }

  lemma {:induction false} DivCollect(div: Node, t1: string, t2: string)
    requires div.Element? && Lower(div.tag) == "div" && |div.children| == 2
    requires IsParagraphOf(div.children[0], t1, div.tag) && IsParagraphOf(div.children[1], t2, div.tag)
    ensures Collection.Collect(div, true, false, None) == DivItems(t1, t2)
  {
    var ch := div.children;
    var c1 := ParagraphItems(t1);
    var c2 := ParagraphItems(t2);
    assert Collection.CollectChildren(ch, false, div.tag) == c1 + c2 by {
      ParagraphCollect(ch[0], t1, div.tag);
      ParagraphCollect(ch[1], t2, div.tag);
      assert ch[..1][..0] == [] && ch[..1][0] == ch[0];
      assert Collection.CollectChildren(ch[..1], false, div.tag) == c1;
    }
    assert Rendering.IsBlockLevel(div.tag) && "div" !in Collection.PreTags && "div" != "p";
    Collection.CollectBlock(div.tag, div.attrs, div.children, true, false, None);
    assert [Brk(1)] + (c1 + c2) + [Brk(1)] == [Brk(1)] + c1 + c2 + [Brk(1)];
    DivScan(t1, t2);
  }

  /** The div's merge pass copies both paragraph scopes and its own break counts. */
  lemma {:induction false} DivScan(t1: string, t2: string)
    ensures Merge.Merge([Brk(1)] + ParagraphItems(t1) + ParagraphItems(t2) + [Brk(1)], false) == DivItems(t1, t2)
  {
    var f := RunFlush(false);
    ScanParagraph(t2, [Brk(1)], f);
    ScanParagraph(t1, ParagraphItems(t2) + [Brk(1)], f);
    ScanBetweenBreaks(ParagraphItems(t1), ParagraphItems(t2), f);
  }

  /** Two chunks the loop copies through, framed by a break count on each side. */
  lemma {:induction false} ScanBetweenBreaks(c1: seq<Item>, c2: seq<Item>, f: string -> string)
    requires Scan(c2 + [Brk(1)], None, 0, f) == c2 + Scan([Brk(1)], None, 0, f)
    requires Scan(c1 + (c2 + [Brk(1)]), None, 0, f) == c1 + Scan(c2 + [Brk(1)], None, 0, f)
    ensures Scan([Brk(1)] + c1 + c2 + [Brk(1)], None, 0, f) == [Brk(1)] + c1 + c2 + [Brk(1)]
  {
    AppendAssoc([Brk(1)] + c1, c2, [Brk(1)]);
    AppendAssoc([Brk(1)], c1, c2 + [Brk(1)]);
    assert Scan([Brk(1)], None, 0, f) == [Brk(1)] by {
      ScanOnlyBreaks([Brk(1)], 1, 0, f);
    }
    ScanBreakCopied(1, c1 + (c2 + [Brk(1)]), 0, f);
  }

  /** At depth 0 the merge loop copies a paragraph's items through unchanged. */
  lemma {:induction false} ScanParagraph(t: string, rest: seq<Item>, f: string -> string)
    ensures Scan(ParagraphItems(t) + rest, None, 0, f) == ParagraphItems(t) + Scan(rest, None, 0, f)
  {
    var b := [Brk(1), Brk(1)] + [Str(t)] + [Brk(1), Brk(1)];
    assert ParagraphItems(t) == [BStart] + b + [BEnd];
    ScanFlatScope(b, rest, f);
  }

  lemma {:induction false} ParagraphCollect(p: Node, t: string, parentTag: string)
    requires IsParagraphOf(p, t, parentTag)
    ensures Collection.Collect(p, false, false, Some(parentTag)) == ParagraphItems(t)
  {
    assert Collection.CollectChildren([Text(t)], false, p.tag) == [Str(t)] by {
      Collection.TextChildren([Text(t)], false, p.tag);
    }
    assert "p" !in Collection.PreTags;
    Collection.CollectBlock(p.tag, p.attrs, p.children, false, false, Some(parentTag));
    ParagraphMerge(t);
  }

  /** The merge pass of a p holding one collapsed text. */
  lemma {:induction false} ParagraphMerge(t: string)
    requires Whitespace.Collapsed(t)
    ensures Merge.Merge([Brk(1)] + ([Brk(1)] + [Str(t)] + [Brk(1)]) + [Brk(1)], false) == ParagraphItems(t)
  {
    var f := RunFlush(false);
    var body := [Brk(1)] + ([Brk(1)] + [Str(t)] + [Brk(1)]) + [Brk(1)];
    assert Scan(body, None, 0, f) == body by {
      assert f(t) == t by {
        RunFlushApply(false, t);
        Whitespace.NormaliseFixesCollapsed(t);
      }
      ParagraphBodyScan(t, f);
    }
    assert [BStart] + body + [BEnd] == ParagraphItems(t);
  }

  /** A paragraph's own list, when the flush leaves its text as it is: the pending text is
      flushed at the first closing break, so the loop copies the list. */
  lemma {:induction false} ParagraphBodyScan(t: string, f: string -> string)
    requires f(t) == t
    ensures Scan([Brk(1)] + ([Brk(1)] + [Str(t)] + [Brk(1)]) + [Brk(1)], None, 0, f) ==
              [Brk(1)] + ([Brk(1)] + [Str(t)] + [Brk(1)]) + [Brk(1)]
  {
    var x := [Str(t)] + [Brk(1), Brk(1)];
    assert [Brk(1)] + ([Brk(1)] + [Str(t)] + [Brk(1)]) + [Brk(1)] == [Brk(1)] + ([Brk(1)] + x);
    ScanTwoBreaksThen(x, f);
    ScanTextThenBreaks(t, f);
  }

  /** Two break counts at depth 0 with nothing pending are copied. */
  lemma {:induction false} ScanTwoBreaksThen(x: seq<Item>, f: string -> string)
    ensures Scan([Brk(1)] + ([Brk(1)] + x), None, 0, f) == [Brk(1)] + ([Brk(1)] + Scan(x, None, 0, f))
  {
    ScanBreakCopied(1, [Brk(1)] + x, 0, f);
    ScanBreakCopied(1, x, 0, f);
  }

  /** A text followed by two break counts is flushed, through f, at the first break. */
  lemma {:induction false} ScanTextThenBreaks(t: string, f: string -> string)
    requires f(t) == t
    ensures Scan([Str(t)] + [Brk(1), Brk(1)], None, 0, f) == [Str(t)] + [Brk(1), Brk(1)]
  {
    var tail := [Brk(1), Brk(1)];
    assert Step(Str(t), None, 0, f) == StepResult([], Some(t), 0);
    assert ([Str(t)] + tail)[1..] == tail;
    FlushBeforeNonString(tail, t, f);
    ScanOnlyBreaks(tail, 1, 0, f);
  }

  /** Steps 3 to 6 of innerText on the div's items. */
  lemma {:induction false} DivItemsText(t1: string, t2: string)
    requires t1 != "" && t2 != ""
    ensures InnerText.Concat(InnerText.Expand(InnerText.StripEnds(InnerText.DropEmpty(DivItems(t1, t2))), 0)) ==
              t1 + "\n" + t2
  {
    DivStripped(t1, t2);
    BetweenParagraphs(t1, t2);
    ConcatThree(t1, "\n", t2);
  }

  /** The items between the two texts. */
  const Between: seq<Item> := Close + Open

  /** Steps 3 and 4 leave the two texts and the integer items between them. */
  lemma {:induction false} DivStripped(t1: string, t2: string)
    requires t1 != "" && t2 != ""
    ensures InnerText.StripEnds(InnerText.DropEmpty(DivItems(t1, t2))) == [Str(t1)] + Between + [Str(t2)]
  {
    var all := DivItems(t1, t2);
    var mid := [Str(t1)] + Between + [Str(t2)];
    var lead := [BStart, Brk(1)] + Open;
    var trail := Close + [Brk(1), BEnd];
    assert all == lead + mid + trail;
    InnerText.DropEmptyUnchanged(all);
    InnerText.StripEndsFrame(lead, mid, trail);
  }

  /** Step 5 turns the six integer items between the texts into one line feed. */
  lemma {:induction false} BetweenParagraphs(t1: string, t2: string)
    ensures InnerText.Expand([Str(t1)] + Between + [Str(t2)], 0) == [t1, "\n", t2]
  {
    var mid := [Str(t1)] + Between + [Str(t2)];
    assert InnerText.MaxBreak(Between) == 1 by {
      assert Between[0] == Brk(1);
    }
    assert mid[0] == Str(t1) && mid[1..] == Between + [Str(t2)] + [];
    InnerText.RunBecomesMax(Between, t2, []);
    assert InnerText.LineFeeds(1) == "\n";
  }

  lemma {:induction false} ConcatThree(a: string, b: string, c: string)
    ensures InnerText.Concat([a, b, c]) == a + b + c
  {
    assert [a, b, c][1..] == [b, c] && [b, c][1..] == [c] && [c][1..] == [];
    assert InnerText.Concat([c]) == c + InnerText.Concat([]) == c;
    assert InnerText.Concat([b, c]) == b + c;
    assert a + (b + c) == a + b + c;
  }

  /** Inside one open scope, items other than markers are copied and the depth stays. */
  lemma {:induction false} ScanFlatInside(body: seq<Item>, tail: seq<Item>, f: string -> string)
    requires forall i :: 0 <= i < |body| ==> !body[i].BStart? && !body[i].BEnd?
    ensures Scan(body + tail, None, 1, f) == body + Scan(tail, None, 1, f)
    decreases |body|
  {
    if body == [] {
      assert body + tail == tail;
    } else {
      assert (body + tail)[0] == body[0] && (body + tail)[1..] == body[1..] + tail;
      assert Step(body[0], None, 1, f) == StepResult([body[0]], None, 1);
      ScanFlatInside(body[1..], tail, f);
    }
  }

  /** At depth 0, a scope without inner markers is copied through unchanged. */
  lemma {:induction false} ScanFlatScope(body: seq<Item>, rest: seq<Item>, f: string -> string)
    requires forall i :: 0 <= i < |body| ==> !body[i].BStart? && !body[i].BEnd?
    ensures Scan([BStart] + body + [BEnd] + rest, None, 0, f) == [BStart] + body + [BEnd] + Scan(rest, None, 0, f)
  {
    var x := [BStart] + body + [BEnd] + rest;
    var tail := [BEnd] + rest;
    var after := Scan(rest, None, 0, f);
    assert x[0] == BStart && x[1..] == body + tail;
    assert Scan(x, None, 0, f) == [BStart] + Scan(body + tail, None, 1, f) by {
      assert Step(BStart, None, 0, f) == StepResult([BStart], None, 1);
    }
    ScanFlatInside(body, tail, f);
    assert Scan(tail, None, 1, f) == [BEnd] + after by {
      ScanNestedStep(tail, 1, f);
      assert tail[1..] == rest;
    }
    AppendAssoc([BStart], body, [BEnd] + after);
    AppendAssoc([BStart] + body, [BEnd], after);
  }
}
