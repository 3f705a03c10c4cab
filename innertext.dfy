/** innerText (src/Innertext.php:23-104): run the collection steps on the outer node, drop
    empty strings, drop the runs of integer items at both ends, turn every remaining run of
    integer items into line feeds, and concatenate. */
module InnerText {
  import opened Dom
  import opened Items
  import Collection
  import Whitespace

  /** BLOCK_START and BLOCK_END as the integers the code compares against. */
  const BlockStart: int := -1111111111
  const BlockEnd: int := -9999999999

  /** The integer an integer item is to the code. */
  function IntValue(it: Item): (v: int)
    requires IsInt(it)
    ensures it.Brk? ==> v == it.count
    ensures !it.Brk? ==> v < 0
  {
    match it
    case Brk(c) => c
    case BStart => BlockStart
    case BEnd => BlockEnd
  }

  // ---------------------------------------------------------------------------
  // Step 3

  /** array_filter removing the empty strings, in order. */
  function DropEmpty(items: seq<Item>): (r: seq<Item>)
    ensures |r| <= |items|
    ensures forall x :: x in r <==> x in items && x != Str("")
  {
    if items == [] then []
    else (if items[0] == Str("") then [] else [items[0]]) + DropEmpty(items[1..])
  }

  // ---------------------------------------------------------------------------
  // Step 4

  /** Length of the leading run of integer items. */
  function LeadingInts(items: seq<Item>): (k: nat)
    ensures k <= |items|
    ensures forall i :: 0 <= i < k ==> IsInt(items[i])
    ensures k < |items| ==> !IsInt(items[k])
  {
    if items != [] && IsInt(items[0]) then 1 + LeadingInts(items[1..]) else 0
  }

  /** Length of the trailing run of integer items. */
  function TrailingInts(items: seq<Item>): (k: nat)
    ensures k <= |items|
    ensures forall i :: |items| - k <= i < |items| ==> IsInt(items[i])
    ensures k < |items| ==> !IsInt(items[|items| - 1 - k])
  {
    if items != [] && IsInt(items[|items| - 1]) then 1 + TrailingInts(items[..|items| - 1]) else 0
  }

  /** The list without its leading and trailing runs of integer items: a contiguous stretch
      that starts and ends with a string, everything outside it an integer item, and empty
      exactly when every item is an integer. */
  function StripEnds(items: seq<Item>): (r: seq<Item>)
    ensures LeadingInts(items) + |r| <= |items|
    ensures r == items[LeadingInts(items)..LeadingInts(items) + |r|]
    ensures forall i :: 0 <= i < |items| && !(LeadingInts(items) <= i < LeadingInts(items) + |r|) ==>
              IsInt(items[i])
    ensures |r| > 0 ==> !IsInt(r[0]) && !IsInt(r[|r| - 1])
    ensures r == [] <==> forall i :: 0 <= i < |items| ==> IsInt(items[i])
  {
    var s := LeadingInts(items);
    if s == |items| then []
    else
      var t := TrailingInts(items);
      items[s..|items| - t]
  }

  // ---------------------------------------------------------------------------
  // Step 5

  /** str_repeat("\n", n) */
  function LineFeeds(n: nat): (r: string)
    ensures |r| == n && forall i :: 0 <= i < n ==> r[i] == Whitespace.LF
  {
    seq(n, _ => Whitespace.LF)
  }

  /** max($breaks, $item) */
  function MaxWith(breaks: nat, it: Item): (b: nat)
    requires IsInt(it)
    ensures b >= breaks && (it.Brk? ==> b >= it.count)
    ensures b == breaks || (it.Brk? && b == it.count)
  {
    if IntValue(it) > breaks then IntValue(it) else breaks
  }

  /** The step 5 loop as a function of the remaining items and the $breaks carried in: a
      string is emitted after the line feeds its preceding integers asked for. */
  function Expand(items: seq<Item>, breaks: nat): seq<string>
    decreases |items|
  {
    if items == [] then []
    else if IsInt(items[0]) then Expand(items[1..], MaxWith(breaks, items[0]))
    else (if breaks != 0 then [LineFeeds(breaks)] else []) + [items[0].s] + Expand(items[1..], 0)
  }

  /** The largest required line break count in a run, 0 when it has none: block markers
      count for nothing. */
  function MaxBreak(run: seq<Item>): (m: nat)
    ensures forall i :: 0 <= i < |run| && run[i].Brk? ==> run[i].count <= m
    ensures m == 0 || exists i :: 0 <= i < |run| && run[i] == Brk(m)
  {
    if run == [] then 0
    else
      var rest := MaxBreak(run[1..]);
      if run[0].Brk? && run[0].count > rest then run[0].count else rest
  }

  /** A run of integer items raises the carried $breaks to its largest count and emits
      nothing. */
  lemma {:induction false} RunRaisesBreaks(run: seq<Item>, rest: seq<Item>, breaks: nat)
    requires forall i :: 0 <= i < |run| ==> IsInt(run[i])
    ensures Expand(run + rest, breaks) ==
              Expand(rest, if MaxBreak(run) > breaks then MaxBreak(run) else breaks)
    decreases |run|
  {
    if run == [] {
      assert run + rest == rest;
    } else {
      assert (run + rest)[0] == run[0] && (run + rest)[1..] == run[1..] + rest;
      var m := MaxBreak(run[1..]);
      assert MaxBreak(run) == if run[0].Brk? && run[0].count > m then run[0].count else m;
      assert Expand(run + rest, breaks) == Expand(run[1..] + rest, MaxWith(breaks, run[0]));
      assert MaxWith(breaks, run[0]) == if run[0].Brk? && run[0].count > breaks then run[0].count else breaks;
      var b := MaxWith(breaks, run[0]);
      RunRaisesBreaks(run[1..], rest, b);
      assert (if m > b then m else b) == (if MaxBreak(run) > breaks then MaxBreak(run) else breaks);
    }
  }

  /** A run of integer items between two strings becomes max(counts) line feeds, never their
      sum; a run without a break count (block markers only) inserts nothing. */
  lemma {:induction false} RunBecomesMax(run: seq<Item>, s: string, rest: seq<Item>)
    requires forall i :: 0 <= i < |run| ==> IsInt(run[i])
    ensures var m := MaxBreak(run);
            Expand(run + [Str(s)] + rest, 0) == (if m > 0 then [LineFeeds(m)] else []) + [s] + Expand(rest, 0)
    ensures (forall i :: 0 <= i < |run| ==> !run[i].Brk?) ==> MaxBreak(run) == 0
  {
    assert run + [Str(s)] + rest == run + ([Str(s)] + rest);
    RunRaisesBreaks(run, [Str(s)] + rest, 0);
    assert ([Str(s)] + rest)[1..] == rest;
  }

  // ---------------------------------------------------------------------------
  // Step 6 and the whole algorithm

  /** implode('', ...) */
  function Concat(strs: seq<string>): string
  {
    if strs == [] then "" else strs[0] + Concat(strs[1..])
  }

  /** implode over two lists is the concatenation of the two implosions. */
  lemma {:induction false} ConcatAppend(a: seq<string>, b: seq<string>)
    ensures Concat(a + b) == Concat(a) + Concat(b)
  {
    if a == [] {
      assert a + b == b;
    } else {
      assert (a + b)[0] == a[0] && (a + b)[1..] == a[1..] + b;
      ConcatAppend(a[1..], b);
    }
  }

  /** The inner text of `root`, steps 2 to 6. */
  function InnerTextOf(root: Node): string
  {
    Concat(Expand(StripEnds(DropEmpty(Collection.Collect(root, true, false, None))), 0))
  }

  // ---------------------------------------------------------------------------
  // Properties of the post-processing

  /** After steps 3 and 4 no empty string is left, the list neither starts nor ends with an
      integer item, and a list of integers alone becomes empty. */
  lemma {:induction false} CleanedList(items: seq<Item>)
    ensures var r := StripEnds(DropEmpty(items));
            Str("") !in r &&
            (|r| > 0 ==> !IsInt(r[0]) && !IsInt(r[|r| - 1])) &&
            ((forall i :: 0 <= i < |items| ==> IsInt(items[i])) ==> r == [])
  {
    var d := DropEmpty(items);
    StripEndsSublist(d);
    if forall i :: 0 <= i < |items| ==> IsInt(items[i]) {
      DropEmptyAllInts(items);
    }
  }

  /** Every item step 4 keeps was in its input. */
  lemma {:induction false} StripEndsSublist(items: seq<Item>)
    ensures forall x :: x in StripEnds(items) ==> x in items
  {
    var r := StripEnds(items);
    var s := LeadingInts(items);
    forall x | x in r
      ensures x in items
    {
      var j :| 0 <= j < |r| && r[j] == x;
      assert r[j] == items[s + j];
    }
  }

  /** Step 3 keeps a list of integer items all integers. */
  lemma {:induction false} DropEmptyAllInts(items: seq<Item>)
    requires forall i :: 0 <= i < |items| ==> IsInt(items[i])
    ensures forall j :: 0 <= j < |DropEmpty(items)| ==> IsInt(DropEmpty(items)[j])
  {
    var d := DropEmpty(items);
    forall j | 0 <= j < |d|
      ensures IsInt(d[j])
    {
      assert d[j] in d;
      var i :| 0 <= i < |items| && items[i] == d[j];
    }
  }

  /** Conversely, a list framed by integer items around a stretch that starts and ends with
      a string is stripped to exactly that stretch. */
  lemma {:induction false} StripEndsFrame(lead: seq<Item>, mid: seq<Item>, trail: seq<Item>)
    requires forall i :: 0 <= i < |lead| ==> IsInt(lead[i])
    requires forall i :: 0 <= i < |trail| ==> IsInt(trail[i])
    requires |mid| > 0 && !IsInt(mid[0]) && !IsInt(mid[|mid| - 1])
    ensures StripEnds(lead + mid + trail) == mid
  {
    var all := lead + mid + trail;
    assert all[|lead|] == mid[0];
    var s := LeadingInts(all);
    assert s == |lead|;
    var t := TrailingInts(all);
    assert all[|all| - 1 - |trail|] == mid[|mid| - 1];
    assert t == |trail|;
    assert all[s..|all| - t] == mid;
  }

  /** Step 3 keeps every integer item, in order. */
  lemma {:induction false} DropEmptyKeepsInts(items: seq<Item>)
    ensures NonStr(DropEmpty(items)) == NonStr(items)
  {
    if items != [] {
      DropEmptyKeepsInts(items[1..]);
      var head := if items[0] == Str("") then [] else [items[0]];
      NonStrAppend(head, DropEmpty(items[1..]));
      assert items == [items[0]] + items[1..];
      NonStrAppend([items[0]], items[1..]);
    }
  }

  /** Step 3 filters item by item: on two lists it is the concatenation of the filtered
      lists, and it keeps a single item exactly when that item is not the empty string. Together
      these say it keeps every other item, in order and with its repetitions. */
  lemma {:induction false} DropEmptyAppend(a: seq<Item>, b: seq<Item>)
    ensures DropEmpty(a + b) == DropEmpty(a) + DropEmpty(b)
    ensures forall x :: DropEmpty([x]) == if x == Str("") then [] else [x]
    decreases |a|
  {
    if a == [] {
      assert a + b == b;
    } else {
      assert (a + b)[0] == a[0] && (a + b)[1..] == a[1..] + b;
      DropEmptyAppend(a[1..], b);
      var head := if a[0] == Str("") then [] else [a[0]];
      AppendAssoc(head, DropEmpty(a[1..]), DropEmpty(b));
    }
    forall x
      ensures DropEmpty([x]) == if x == Str("") then [] else [x]
    {
      assert [x][1..] == [];
    }
  }

  /** Steps 3 to 6 turn a list of integer items alone into the empty string. */
  lemma {:induction false} IntegersOnlyText(items: seq<Item>)
    requires forall i :: 0 <= i < |items| ==> IsInt(items[i])
    ensures Concat(Expand(StripEnds(DropEmpty(items)), 0)) == ""
  {
    CleanedList(items);
  }

  /** Step 3 leaves a list without empty strings as it is. */
  lemma {:induction false} DropEmptyUnchanged(items: seq<Item>)
    requires Str("") !in items
    ensures DropEmpty(items) == items
  {
    if items != [] {
      assert forall x :: x in items[1..] ==> x in items;
      DropEmptyUnchanged(items[1..]);
      assert items == [items[0]] + items[1..];
    }
  }

  /** Without integer items, step 5 emits the strings as they are, in order. */
  lemma {:induction false} ExpandStringsOnly(items: seq<Item>)
    requires forall i :: 0 <= i < |items| ==> items[i].Str?
    ensures Expand(items, 0) == seq(|items|, i requires 0 <= i < |items| => items[i].s)
  {
    if items != [] {
      ExpandStringsOnly(items[1..]);
    }
  }

  /** The inner text of a text node is its data, with no white space processing. */
  lemma {:induction false} TextNodeInnerText(data: string)
    ensures InnerTextOf(Text(data)) == data
  {
    var c := Collection.Collect(Text(data), true, false, None);
    assert c == [Str(data)];
    if data == "" {
      assert DropEmpty(c) == [];
    } else {
      assert DropEmpty(c) == c;
      assert StripEnds(c) == c;
      assert Expand(c, 0) == [data];
      assert Concat([data]) == data + Concat([data][1..]);
      assert [data][1..] == [];
    }
  }

  /** innerText */
  method InnerText(root: Node) returns (text: string)
    ensures text == InnerTextOf(root)
  {
    // Step 2
    var result := Collection.TextCollection(root, true, false, None);
    // Step 3
    result := DropEmpty(result);
    // Step 4
    result := StripIntRuns(result);
    // Step 5
    var lines := ExpandBreaks(result);
    // Step 6
    text := Concat(lines);
  }

  /** Step 4 of innerText: count the integer items to drop at each end, then array_slice
      them away; a $trailing of 0 slices to the end. */
  method StripIntRuns(result: seq<Item>) returns (r: seq<Item>)
    ensures r == StripEnds(result)
  {
    var start, trailing := CountIntRuns(result);
    if trailing == 0 {
      r := result[start..];
    } else {
      r := result[start..|result| - trailing];
    }
    StripEndsCases(result);
  }

  /** The counting loop of step 4: $start counts the leading integer items, $trailing those
      after the last string; with no string at all, $trailing stays 0. */
  method CountIntRuns(result: seq<Item>) returns (start: nat, trailing: nat)
    ensures start == LeadingInts(result)
    ensures start < |result| ==> trailing == TrailingInts(result)
    ensures start == |result| ==> trailing == 0
  {
    var fromStart := true;
    start := 0;
    trailing := 0;
    var i := 0;
    while i < |result|
      invariant 0 <= i <= |result|
      invariant fromStart ==> start == i <= LeadingInts(result) && trailing == 0
      invariant !fromStart ==> start == LeadingInts(result) < i && trailing == TrailingInts(result[..i])
    {
      TrailingIntsSnoc(result, i);
      if IsInt(result[i]) {
        if fromStart {
          start := start + 1;
        } else {
          trailing := trailing + 1;
        }
      } else {
        fromStart := false;
        trailing := 0;
      }
      i := i + 1;
    }
    assert result[..i] == result;
  }

  /** Step 4 by cases: an all-integer list goes, otherwise both runs are sliced off. */
  lemma {:induction false} StripEndsCases(items: seq<Item>)
    ensures LeadingInts(items) == |items| ==> StripEnds(items) == []
    ensures LeadingInts(items) < |items| ==>
              StripEnds(items) == items[LeadingInts(items)..|items| - TrailingInts(items)]
  {
  }

  /** One more item extends the trailing run of integer items, or a string ends it. */
  lemma {:induction false} TrailingIntsSnoc(items: seq<Item>, i: nat)
    requires i < |items|
    ensures TrailingInts(items[..i + 1]) == if IsInt(items[i]) then 1 + TrailingInts(items[..i]) else 0
  {
    assert items[..i + 1][..i] == items[..i];
  }

  /** Step 5 of innerText: $breaks keeps the maximum of the integers seen since the last
      string, and a string is preceded by that many line feeds when it is not zero. */
  method ExpandBreaks(result: seq<Item>) returns (tempResult: seq<string>)
    ensures tempResult == Expand(result, 0)
  {
    tempResult := [];
    var breaks: nat := 0;
    var i := 0;
    while i < |result|
      invariant 0 <= i <= |result|
      invariant tempResult + Expand(result[i..], breaks) == Expand(result, 0)
    {
      var item := result[i];
      assert result[i..][1..] == result[i + 1..];
      if IsInt(item) {
        breaks := MaxWith(breaks, item);
      } else {
        var emitted := if breaks != 0 then [LineFeeds(breaks), item.s] else [item.s];
        assert Expand(result[i..], breaks) == emitted + Expand(result[i + 1..], 0);
        AppendAssoc(tempResult, emitted, Expand(result[i + 1..], 0));
        tempResult := tempResult + emitted;
        breaks := 0;
      }
      i := i + 1;
    }
  }
}
