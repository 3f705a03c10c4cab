/** The inner text collection steps, as textCollection implements them
    (src/Innertext.php:109-309): Collect is the recursion as a function, TextCollection the
    method with the child loop. `outer` marks the element innerText was asked about, `pre`
    says an ancestor (or the node) sets white-space pre, and `parent` is the tag of the
    node's parent element, which the walk passes down. */
module Collection {
  import opened Dom
  import opened Items
  import opened Merge
  import opened Rendering
  import Whitespace

  /** Elements that switch white-space processing off for their subtree. */
  const PreTags: set<string> := {"listing", "plaintext", "pre", "xmp", "textarea"}

  /** PARAGRAPH_REQ_LINE_BREAKS */
  const ParagraphBreaks: nat := 1

  /** The text an img stands for: its trimmed alt, else its trimmed src, else nothing. */
  function ImgValue(attrs: map<string, string>): string
  {
    if HasAttr(attrs, "alt") then Whitespace.Trim(GetAttr(attrs, "alt"), Whitespace.PhpTrimChars)
    else if HasAttr(attrs, "src") then Whitespace.Trim(GetAttr(attrs, "src"), Whitespace.PhpTrimChars)
    else ""
  }

  /** The items a node contributes. Every list is well nested in block markers and carries
      only positive break counts. */
  function Collect(n: Node, outer: bool, pre: bool, parent: Option<string>): (r: seq<Item>)
    ensures WellNested(r) && PositiveBreaks(r)
    decreases n
  {
    match n
    case Text(data) =>
      OneString(data);
      [Str(data)]
    case Element(tag, attrs, children) =>
      var name := Lower(tag);
      var pre' := pre || name in PreTags;
      var items := CollectChildren(children, pre', tag);
      if !outer && !IsBeingRendered(tag, attrs, parent) then []
      else if name == "br" then
        WrapNested([Str([Whitespace.LF])], BStart, BEnd);
        assert [BStart] + [Str([Whitespace.LF])] + [BEnd] == [BStart, Str([Whitespace.LF]), BEnd];
        [BStart, Str([Whitespace.LF]), BEnd]
      else
        var items1 := if name == "p" then [Brk(ParagraphBreaks)] + items + [Brk(ParagraphBreaks)] else items;
        WrapNested(items, Brk(ParagraphBreaks), Brk(ParagraphBreaks));
        if name == "img" then
          var v := ImgValue(attrs);
          var s := if outer then v else " " + v + " ";
          OneString(s);
          [Str(s)]
        else
          var block := IsBlockLevel(tag) || name == "caption";
          var items2 := if block then [Brk(1)] + items1 + [Brk(1)] else items1;
          WrapNested(items1, Brk(1), Brk(1));
          if outer || IsBlockLevel(tag) then
            MergeWellFormed(items2, pre');
            Merge.Merge(items2, pre')
          else items2
  }

  /** The children's items concatenated in tree order; each child sees `parentTag` as its
      parent and is never the outer node. */
  function CollectChildren(cs: seq<Node>, pre: bool, parentTag: string): (r: seq<Item>)
    ensures WellNested(r) && PositiveBreaks(r)
    decreases cs
  {
    if cs == [] then []
    else
      var front := CollectChildren(cs[..|cs| - 1], pre, parentTag);
      var last := Collect(cs[|cs| - 1], false, pre, Some(parentTag));
      NestedConcat(front, last, 0, 0);
      front + last
  }

  /** textCollection */
  method TextCollection(n: Node, outer: bool, pre: bool, parent: Option<string>) returns (items: seq<Item>)
    ensures items == Collect(n, outer, pre, parent)
    decreases n
  {
    var pre' := pre;
    if n.Element? && Lower(n.tag) in PreTags {
      pre' := true;
    }
    items := [];
    if n.Element? {
      var i := 0;
      while i < |n.children|
        invariant 0 <= i <= |n.children|
        invariant items == CollectChildren(n.children[..i], pre', n.tag)
      {
        var childItems := TextCollection(n.children[i], false, pre', Some(n.tag));
        assert n.children[..i + 1][..i] == n.children[..i];
        items := items + childItems;
        i := i + 1;
      }
      assert n.children[..i] == n.children;
    }
    if !outer && n.Element? && !IsBeingRendered(n.tag, n.attrs, parent) {
      return [];
    }
    if n.Text? {
      return [Str(n.data)];
    }
    var name := Lower(n.tag);
    if name == "br" {
      return [BStart, Str([Whitespace.LF]), BEnd];
    }
    if name == "p" {
      items := [Brk(ParagraphBreaks)] + items + [Brk(ParagraphBreaks)];
    }
    if name == "img" {
      var value := "";
      if HasAttr(n.attrs, "alt") {
        value := Whitespace.Trim(GetAttr(n.attrs, "alt"), Whitespace.PhpTrimChars);
      } else if HasAttr(n.attrs, "src") {
        value := Whitespace.Trim(GetAttr(n.attrs, "src"), Whitespace.PhpTrimChars);
      }
      if outer {
        return [Str(value)];
      } else {
        return [Str(" " + value + " ")];
      }
    }
    if IsBlockLevel(n.tag) || name == "caption" {
      items := [Brk(1)] + items + [Brk(1)];
    }
    if outer || IsBlockLevel(n.tag) {
      items := MergePass(items, pre');
    }
  }

  // ---------------------------------------------------------------------------
  // Properties

  /** Collecting a list of children in two parts concatenates the parts' items. */
  lemma {:induction false} CollectChildrenAppend(a: seq<Node>, b: seq<Node>, pre: bool, t: string)
    ensures CollectChildren(a + b, pre, t) == CollectChildren(a, pre, t) + CollectChildren(b, pre, t)
    decreases |b|
  {
    if b == [] {
      assert a + b == a;
    } else {
      var b' := b[..|b| - 1];
      assert (a + b)[..|a + b| - 1] == a + b';
      assert (a + b)[|a + b| - 1] == b[|b| - 1];
      CollectChildrenAppend(a, b', pre, t);
    }
  }

  /** Text children contribute their data as they are, one string each, in order. */
  lemma {:induction false} TextChildren(cs: seq<Node>, pre: bool, t: string)
    requires forall i :: 0 <= i < |cs| ==> cs[i].Text?
    ensures var r := CollectChildren(cs, pre, t);
            |r| == |cs| && forall i :: 0 <= i < |cs| ==> r[i] == Str(cs[i].data)
    decreases |cs|
  {
    if cs != [] {
      var front := cs[..|cs| - 1];
      TextChildren(front, pre, t);
      assert Collect(cs[|cs| - 1], false, pre, Some(t)) == [Str(cs[|cs| - 1].data)];
    }
  }

  /** A child that is not being rendered contributes nothing: removing it leaves the
      parent's items unchanged. */
  lemma {:induction false} HiddenChildErased(a: seq<Node>, h: Node, b: seq<Node>, pre: bool, t: string)
    requires h.Element? && !IsBeingRendered(h.tag, h.attrs, Some(t))
    ensures CollectChildren(a + [h] + b, pre, t) == CollectChildren(a + b, pre, t)
  {
    CollectChildrenAppend(a + [h], b, pre, t);
    CollectChildrenAppend(a, [h], pre, t);
    CollectChildrenAppend(a, b, pre, t);
    assert [h][..0] == [];
  }

  /** The nodes whose items do not depend on their children: text, an element that is not
      rendered, br, and img. */
  lemma {:induction false} Leaves(n: Node, outer: bool, pre: bool, parent: Option<string>)
    ensures n.Text? ==> Collect(n, outer, pre, parent) == [Str(n.data)]
    ensures n.Element? && !outer && !IsBeingRendered(n.tag, n.attrs, parent) ==>
              Collect(n, outer, pre, parent) == []
    ensures n.Element? && (outer || IsBeingRendered(n.tag, n.attrs, parent)) && Lower(n.tag) == "br" ==>
              Collect(n, outer, pre, parent) == [BStart, Str("\n"), BEnd]
    ensures n.Element? && (outer || IsBeingRendered(n.tag, n.attrs, parent)) && Lower(n.tag) == "img" ==>
              Collect(n, outer, pre, parent) == [Str(if outer then ImgValue(n.attrs) else " " + ImgValue(n.attrs) + " ")]
  {
  }

  /** The image text: alt wins over src, both are trimmed of PHP's default white space, and
      an image with neither yields the empty string. */
  lemma {:induction false} ImgValueChoice(attrs: map<string, string>)
    ensures "alt" in attrs ==> ImgValue(attrs) == Whitespace.Trim(attrs["alt"], Whitespace.PhpTrimChars)
    ensures "alt" !in attrs && "src" in attrs ==> ImgValue(attrs) == Whitespace.Trim(attrs["src"], Whitespace.PhpTrimChars)
    ensures "alt" !in attrs && "src" !in attrs ==> ImgValue(attrs) == ""
    ensures forall c :: c in Whitespace.PhpTrimChars && |ImgValue(attrs)| > 0 ==>
              ImgValue(attrs)[0] != c && ImgValue(attrs)[|ImgValue(attrs)| - 1] != c
  {
  }

  /** A rendered inline element that is neither the outer node nor one of br, p, img and
      caption passes its children's items through untouched: no breaks, no markers, no
      merging. */
  lemma {:induction false} InlinePassesThrough(tag: string, attrs: map<string, string>, children: seq<Node>, pre: bool,
                            parent: Option<string>)
    requires IsBeingRendered(tag, attrs, parent) && !IsBlockLevel(tag)
    requires Lower(tag) !in {"br", "p", "img", "caption"}
    ensures Collect(Element(tag, attrs, children), false, pre, parent) ==
              CollectChildren(children, pre || Lower(tag) in PreTags, tag)
  {
  }

  /** A rendered table caption that is not the outer node gets one required line break
      before and after its children's items, and is not merged. */
  lemma {:induction false} CaptionBreaks(attrs: map<string, string>, children: seq<Node>, pre: bool, parent: Option<string>)
    requires IsBeingRendered("caption", attrs, parent)
    ensures Collect(Element("caption", attrs, children), false, pre, parent) ==
              [Brk(1)] + CollectChildren(children, pre, "caption") + [Brk(1)]
  {
    assert Lower("caption") == "caption";
    assert !IsBlockLevel("caption");
  }

  /** A block-level element, once merged, sits between BLOCK_START and BLOCK_END with one
      required line break just inside each marker; a p element, block level itself, has
      two: one for the paragraph and one for the block. */
  lemma {:induction false} BlockBreaks(tag: string, attrs: map<string, string>, children: seq<Node>, outer: bool, pre: bool,
                    parent: Option<string>)
    requires outer || IsBeingRendered(tag, attrs, parent)
    requires IsBlockLevel(tag)
    ensures var r := Collect(Element(tag, attrs, children), outer, pre, parent);
            var k := if Lower(tag) == "p" then 2 else 1;
            |r| >= 2 + 2 * k && r[0] == BStart && r[|r| - 1] == BEnd &&
            r[1..1 + k] == seq(k, _ => Brk(1)) && r[|r| - 1 - k..|r| - 1] == seq(k, _ => Brk(1))
  {
    var name := Lower(tag);
    var pre' := pre || name in PreTags;
    var items := CollectChildren(children, pre', tag);
    CollectBlock(tag, attrs, children, outer, pre, parent);
    BlockFraming(items, name == "p", pre');
  }

  /** The merge of a block's items between its breaks (two on each side for a paragraph):
      the breaks sit just inside the block markers. */
  lemma {:induction false} BlockFraming(items: seq<Item>, para: bool, pre: bool)
    ensures var items1 := if para then [Brk(1)] + items + [Brk(1)] else items;
            var r := Merge.Merge([Brk(1)] + items1 + [Brk(1)], pre);
            var k := if para then 2 else 1;
            |r| >= 2 + 2 * k && r[0] == BStart && r[|r| - 1] == BEnd &&
            r[1..1 + k] == seq(k, _ => Brk(1)) && r[|r| - 1 - k..|r| - 1] == seq(k, _ => Brk(1))
  {
    var k := if para then 2 else 1;
    var ones := seq(k, _ => Brk(1));
    if para {
      assert ones == [Brk(1), Brk(1)];
      assert [Brk(1)] + ([Brk(1)] + items + [Brk(1)]) + [Brk(1)] == ones + items + ones;
    } else {
      assert ones == [Brk(1)];
    }
    MergeBetweenBreaks(items, k, pre);
  }

  /** A rendered block-level element (or the outer one) is merged after its breaks are
      added. */
  lemma {:induction false} CollectBlock(tag: string, attrs: map<string, string>, children: seq<Node>, outer: bool, pre: bool,
                     parent: Option<string>)
    requires outer || IsBeingRendered(tag, attrs, parent)
    requires IsBlockLevel(tag)
    ensures var name := Lower(tag);
            var pre' := pre || name in PreTags;
            var items := CollectChildren(children, pre', tag);
            var items1 := if name == "p" then [Brk(1)] + items + [Brk(1)] else items;
            Collect(Element(tag, attrs, children), outer, pre, parent) == Merge.Merge([Brk(1)] + items1 + [Brk(1)], pre')
  {
    assert Lower(tag) != "br" && Lower(tag) != "img";
  }

  /** The merge pass of an element appends nothing to $new_items exactly when the element
      adds no break counts (it is neither block level nor a caption) and its children's
      items are all strings. Block-level elements always append their break counts, so only
      the outer node can reach the merge with nothing to append. */
  lemma {:induction false} MergeAppendsNothingIff(tag: string, children: seq<Node>, pre: bool)
    ensures var name := Lower(tag);
            var pre' := pre || name in PreTags;
            var items := CollectChildren(children, pre', tag);
            var items1 := if name == "p" then [Brk(ParagraphBreaks)] + items + [Brk(ParagraphBreaks)] else items;
            var items2 := if IsBlockLevel(tag) || name == "caption" then [Brk(1)] + items1 + [Brk(1)] else items1;
            Scan(items2, None, 0, RunFlush(pre')) == [] <==>
              !IsBlockLevel(tag) && name != "caption" && forall i :: 0 <= i < |items| ==> items[i].Str?
  {
    var name := Lower(tag);
    var pre' := pre || name in PreTags;
    var items := CollectChildren(children, pre', tag);
    var items1 := if name == "p" then [Brk(ParagraphBreaks)] + items + [Brk(ParagraphBreaks)] else items;
    var items2 := if IsBlockLevel(tag) || name == "caption" then [Brk(1)] + items1 + [Brk(1)] else items1;
    NothingAppendedIff(items2, RunFlush(pre'));
    if IsBlockLevel(tag) || name == "caption" {
      assert !items2[0].Str?;
    } else {
      assert name != "p";
    }
  }

  /** The outer node, when it is inline and none of br, p, img and caption: its children's
      items are merged as they are, with no breaks added. */
  lemma {:induction false} CollectOuterInline(tag: string, attrs: map<string, string>, children: seq<Node>, pre: bool,
                           parent: Option<string>)
    requires !IsBlockLevel(tag) && Lower(tag) !in {"br", "p", "img", "caption"}
    ensures var pre' := pre || Lower(tag) in PreTags;
            Collect(Element(tag, attrs, children), true, pre, parent) ==
              Merge.Merge(CollectChildren(children, pre', tag), pre')
  {
  }

  /** Merging a list framed by k break counts on each side keeps those counts just inside
      the new block markers. */
  lemma {:induction false} MergeBetweenBreaks(items: seq<Item>, k: nat, pre: bool)
    ensures var ones := seq(k, _ => Brk(1));
            var r := Merge.Merge(ones + items + ones, pre);
            |r| >= 2 + 2 * k && r[0] == BStart && r[|r| - 1] == BEnd &&
            r[1..1 + k] == ones && r[|r| - 1 - k..|r| - 1] == ones
  {
    var ones := seq(k, _ => Brk(1));
    var flush := RunFlush(pre);
    var tail := Scan(items + ones, None, 0, flush);
    AppendAssoc(ones, items, ones);
    ScanBreaksFirst(ones, items + ones, flush);
    ScanEndsWithBreaks(items, 1, k, flush);
    FramedSlices(ones, tail);
  }

  /** With nothing pending at top level, leading break counts are copied and the rest is
      scanned from the same state. */
  lemma {:induction false} ScanBreaksFirst(ones: seq<Item>, rest: seq<Item>, flush: string -> string)
    requires forall i :: 0 <= i < |ones| ==> ones[i] == Brk(1)
    ensures Scan(ones + rest, None, 0, flush) == ones + Scan(rest, None, 0, flush)
  {
    ScanAppend(ones, rest, None, 0, flush);
    ScanOnlyBreaks(ones, 1, 0, flush);
    AfterOnlyBreaks(ones, 1, 0, flush);
  }

  /** Between the two markers: a prefix, then a list that ends with that prefix again. */
  lemma {:induction false} FramedSlices(ones: seq<Item>, tail: seq<Item>)
    requires |tail| >= |ones| && tail[|tail| - |ones|..] == ones
    ensures var r := [BStart] + (ones + tail) + [BEnd];
            var k := |ones|;
            |r| >= 2 + 2 * k && r[0] == BStart && r[|r| - 1] == BEnd &&
            r[1..1 + k] == ones && r[|r| - 1 - k..|r| - 1] == ones
  {
    var r := [BStart] + (ones + tail) + [BEnd];
    var k := |ones|;
    assert r[1..1 + k] == ones;
    assert r[|r| - 1 - k..|r| - 1] == tail[|tail| - k..];
  }

  /** With nothing pending, a list of break counts leaves nothing pending and the depth as it
      was. */
  lemma {:induction false} AfterOnlyBreaks(t: seq<Item>, c: nat, depth: nat, flush: string -> string)
    requires forall i :: 0 <= i < |t| ==> t[i] == Brk(c)
    ensures After(t, None, depth, flush) == (None, depth)
    decreases |t|
  {
    if t != [] {
      assert Step(t[0], None, depth, flush) == StepResult([t[0]], None, depth);
      AfterOnlyBreaks(t[1..], c, depth, flush);
    }
  }
}
