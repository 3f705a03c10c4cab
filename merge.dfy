/** Step 9.5 of the collection steps (src/Innertext.php:259-302): merge consecutive strings,
    normalise white space within each merged string, and wrap the list in block markers.
    Scan is the loop as a function over the remaining items, MergeRef an independent
    chunk-by-chunk description of the same result, and MergePass the loop itself.
    The loop's treatment of a finished run (kept verbatim under white-space pre, normalised
    otherwise) is the `flush` parameter of Scan and MergeRef; RunFlush chooses it. */
module Merge {
  import opened Dom
  import opened Items
  import Whitespace

  /** How the merge pass emits a finished run of strings: verbatim under white-space pre,
      through normaliseWhitespace otherwise. */
  function RunFlush(pre: bool): string -> string
  {
    if pre then (run: string) => run else (run: string) => Whitespace.NormaliseWhitespace(run)
  }

  /** `$tmp_string .= $item`: appending to a null accumulator yields the item. */
  function Append(pending: Option<string>, s: string): string
  {
    if pending.Some? then pending.value + s else s
  }

  /** The state the merge loop carries: what one item makes it append, then the new
      $tmp_string and $innerblock. */
  datatype StepResult = StepResult(out: seq<Item>, pending: Option<string>, depth: nat)

  /** One iteration of the merge loop. */
  function Step(it: Item, pending: Option<string>, depth: nat, flush: string -> string): StepResult
  {
    var emit := pending.Some? && !it.Str?;
    var out := if emit then [Str(flush(pending.value))] else [];
    var p := if emit then None else pending;
    var d := if it.BStart? then depth + 1 else depth;
    if d > 0 then StepResult(out + [it], p, if it.BEnd? then d - 1 else d)
    else if it.Str? then StepResult(out, Some(Append(p, it.s)), d)
    else StepResult(out + [it], p, d)
  }

  /** The merge loop run over `items` with `pending` as $tmp_string and `depth` as
      $innerblock. The loop has no final flush: a string still pending when the items run out
      is dropped. */
  function Scan(items: seq<Item>, pending: Option<string>, depth: nat, flush: string -> string): seq<Item>
    decreases |items|
  {
    if items == [] then []
    else
      var st := Step(items[0], pending, depth, flush);
      st.out + Scan(items[1..], st.pending, st.depth, flush)
  }

  /** The result of the merge pass: the scanned list between BLOCK_START and BLOCK_END. */
  function Merge(items: seq<Item>, pre: bool): (r: seq<Item>)
    ensures |r| >= 2 && r[0] == BStart && r[|r| - 1] == BEnd
  {
    [BStart] + Scan(items, None, 0, RunFlush(pre)) + [BEnd]
  }

  /** One iteration outputs the item itself, if it is not a string, and at most a string
      besides. */
  lemma {:induction false} StepKeepsNonStrings(it: Item, pending: Option<string>, depth: nat, flush: string -> string)
    ensures NonStr(Step(it, pending, depth, flush).out) == NonStr([it])
    ensures forall x :: x in Step(it, pending, depth, flush).out ==> x.Str? || x == it
  {
    var st := Step(it, pending, depth, flush);
    var f := if pending.Some? && !it.Str? then [Str(flush(pending.value))] else [];
    assert NonStr(f) == [] by {
      if f != [] {
        assert f[1..] == [];
      }
    }
    assert NonStr([it]) == (if it.Str? then [] else [it]) by {
      assert [it][1..] == [];
    }
    if st.out == f + [it] {
      NonStrAppend(f, [it]);
    } else {
      assert st.out == f;
    }
  }

  /** The loop keeps every non-string item, in order, and adds no other item. */
  lemma {:induction false} ScanKeepsNonStrings(items: seq<Item>, pending: Option<string>, depth: nat,
                                               flush: string -> string)
    ensures NonStr(Scan(items, pending, depth, flush)) == NonStr(items)
    ensures forall x :: x in Scan(items, pending, depth, flush) ==> x.Str? || x in items
    decreases |items|
  {
    if items != [] {
      var st := Step(items[0], pending, depth, flush);
      var rest := Scan(items[1..], st.pending, st.depth, flush);
      ScanKeepsNonStrings(items[1..], st.pending, st.depth, flush);
      StepKeepsNonStrings(items[0], pending, depth, flush);
      NonStrAppend(st.out, rest);
      assert items == [items[0]] + items[1..];
      NonStrAppend([items[0]], items[1..]);
      assert forall x :: x in items[1..] ==> x in items;
    }
  }

  /** The merge pass keeps the input's non-string items, in order, between two new markers,
      and every other item it outputs is a string. */
  lemma {:induction false} MergeKeepsNonStrings(items: seq<Item>, pre: bool)
    ensures NonStr(Merge(items, pre)) == [BStart] + NonStr(items) + [BEnd]
    ensures forall x :: x in Merge(items, pre) && !x.Str? ==> x in items || x == BStart || x == BEnd
  {
    var body := Scan(items, None, 0, RunFlush(pre));
    ScanKeepsNonStrings(items, None, 0, RunFlush(pre));
    NonStrAppend([BStart] + body, [BEnd]);
    NonStrAppend([BStart], body);
  }

  /** A merged list is well nested when its input is, and keeps its break counts positive. */
  lemma {:induction false} MergeWellFormed(items: seq<Item>, pre: bool)
    requires WellNested(items) && PositiveBreaks(items)
    ensures WellNested(Merge(items, pre)) && PositiveBreaks(Merge(items, pre))
  {
    var body := Scan(items, None, 0, RunFlush(pre));
    ScanKeepsNonStrings(items, None, 0, RunFlush(pre));
    NestedIgnoresStrings(items, 0);
    NestedIgnoresStrings(body, 0);
    WrapNested(body, BStart, BEnd);
  }

  /** The loop appends nothing to $new_items exactly when every item is a string: the
      strings are then all held pending and dropped at the end. */
  lemma {:induction false} NothingAppendedIff(items: seq<Item>, flush: string -> string)
    ensures Scan(items, None, 0, flush) == [] <==> forall i :: 0 <= i < |items| ==> items[i].Str?
  {
    ScanKeepsNonStrings(items, None, 0, flush);
    NonStrEmptyIff(items);
    if items != [] && forall i :: 0 <= i < |items| ==> items[i].Str? {
      ScanFromString(items, flush);
    }
  }

  // ---------------------------------------------------------------------------
  // The reference description: the list cut into top-level chunks

  /** Length of the leading run of string items. */
  function StrRunLen(items: seq<Item>): (k: nat)
    ensures k <= |items|
    ensures forall i :: 0 <= i < k ==> items[i].Str?
    ensures k < |items| ==> !items[k].Str?
  {
    if items != [] && items[0].Str? then 1 + StrRunLen(items[1..]) else 0
  }

  /** The concatenation of the string items. */
  function Joined(items: seq<Item>): string
  {
    if items == [] then "" else (if items[0].Str? then items[0].s else "") + Joined(items[1..])
  }

  /** Number of items up to and including the BEnd that closes the `open` scopes already
      open; all of them when the scopes never close. */
  function ScopeLen(items: seq<Item>, open: nat): (k: nat)
    requires open >= 1
    ensures k <= |items|
    ensures |items| > 0 ==> k >= 1
  {
    if items == [] then 0
    else if items[0].BStart? then 1 + ScopeLen(items[1..], open + 1)
    else if items[0].BEnd? then (if open == 1 then 1 else 1 + ScopeLen(items[1..], open - 1))
    else 1 + ScopeLen(items[1..], open)
  }

  /** What the merge pass makes of a list, chunk by chunk: a maximal run of strings becomes
      one flushed string (dropped when it ends the list), a nested scope from BStart to its
      matching BEnd is copied unchanged, any other item is copied. */
  function MergeRef(items: seq<Item>, flush: string -> string): seq<Item>
    decreases |items|
  {
    if items == [] then []
    else if items[0].Str? then
      var k := StrRunLen(items);
      if k == |items| then [] else [Str(flush(Joined(items[..k])))] + MergeRef(items[k..], flush)
    else if items[0].BStart? then
      var k := 1 + ScopeLen(items[1..], 1);
      items[..k] + MergeRef(items[k..], flush)
    else [items[0]] + MergeRef(items[1..], flush)
  }

  /** A string pending at a non-string item is flushed before the item is handled. */
  lemma {:induction false} FlushBeforeNonString(items: seq<Item>, p: string, flush: string -> string)
    requires items != [] && !items[0].Str?
    ensures Scan(items, Some(p), 0, flush) == [Str(flush(p))] + Scan(items, None, 0, flush)
  {
    var it := items[0];
    var st := Step(it, None, 0, flush);
    assert Step(it, Some(p), 0, flush) == StepResult([Str(flush(p))] + st.out, st.pending, st.depth);
  }

  /** With a string pending at depth 0, the loop absorbs the whole run of strings that
      follows and flushes it at the first non-string; at the end of the list it is lost. */
  lemma {:induction false} ScanStringRun(items: seq<Item>, p: string, flush: string -> string)
    ensures StrRunLen(items) == |items| ==> Scan(items, Some(p), 0, flush) == []
    ensures StrRunLen(items) < |items| ==>
              Scan(items, Some(p), 0, flush) ==
                [Str(flush(p + Joined(items[..StrRunLen(items)])))] +
                Scan(items[StrRunLen(items)..], None, 0, flush)
    decreases |items|
  {
    var k := StrRunLen(items);
    if items != [] {
      var it := items[0];
      if it.Str? {
        assert Step(it, Some(p), 0, flush) == StepResult([], Some(p + it.s), 0);
        assert Scan(items, Some(p), 0, flush) == Scan(items[1..], Some(p + it.s), 0, flush);
        ScanStringRun(items[1..], p + it.s, flush);
        assert StrRunLen(items[1..]) == k - 1;
        assert items[..k][1..] == items[1..][..k - 1];
        assert Joined(items[..k]) == it.s + Joined(items[1..][..k - 1]);
        assert items[1..][k - 1..] == items[k..];
        if k < |items| {
          var j := Joined(items[1..][..k - 1]);
          assert Scan(items[1..], Some(p + it.s), 0, flush) ==
                 [Str(flush(p + it.s + j))] + Scan(items[k..], None, 0, flush);
          assert p + it.s + j == p + Joined(items[..k]);
        }
      } else {
        assert k == 0 && items[k..] == items;
        assert p + Joined(items[..k]) == p;
        FlushBeforeNonString(items, p, flush);
      }
    }
  }

  /** The depth after the first item inside `open` nested scopes. */
  function NextDepth(it: Item, open: nat): nat
    requires open >= 1
  {
    if it.BStart? then open + 1 else if it.BEnd? then open - 1 else open
  }

  /** Inside nested scopes the loop copies the item and moves the depth by its marker. */
  lemma {:induction false} ScanNestedStep(items: seq<Item>, open: nat, flush: string -> string)
    requires items != [] && open >= 1
    ensures Scan(items, None, open, flush) == [items[0]] + Scan(items[1..], None, NextDepth(items[0], open), flush)
  {
    assert Step(items[0], None, open, flush) == StepResult([items[0]], None, NextDepth(items[0], open));
  }

  /** ScopeLen takes the first item and goes on at the new depth, or stops when it closes
      the last scope. */
  lemma {:induction false} ScopeLenStep(items: seq<Item>, open: nat)
    requires items != [] && open >= 1
    ensures NextDepth(items[0], open) == 0 ==> ScopeLen(items, open) == 1
    ensures NextDepth(items[0], open) > 0 ==> ScopeLen(items, open) == 1 + ScopeLen(items[1..], NextDepth(items[0], open))
  {
  }

  /** Inside `open` nested scopes, the loop copies every item until the scopes close. */
  lemma {:induction false} ScanNestedScope(items: seq<Item>, open: nat, flush: string -> string)
    requires open >= 1
    ensures Scan(items, None, open, flush) ==
              items[..ScopeLen(items, open)] + Scan(items[ScopeLen(items, open)..], None, 0, flush)
    decreases |items|
  {
    if items != [] {
      var k := ScopeLen(items, open);
      var it := items[0];
      var rest := items[1..];
      var next := NextDepth(it, open);
      assert Scan(items, None, open, flush) == [it] + Scan(rest, None, next, flush) by {
        ScanNestedStep(items, open, flush);
      }
      ScopeLenStep(items, open);
      if next == 0 {
        assert items[..k] == [it] && items[k..] == rest;
      } else {
        var m := ScopeLen(rest, next);
        var tail := Scan(rest[m..], None, 0, flush);
        assert Scan(rest, None, next, flush) == rest[..m] + tail by {
          ScanNestedScope(rest, next, flush);
        }
        assert rest[m..] == items[k..];
        assert items[..k] == [it] + rest[..m];
      }
    }
  }

  /** At depth 0 with nothing pending, a list that starts with a string: the loop absorbs the
      run of strings and flushes it at the first non-string, or drops it at the end. */
  lemma {:induction false} ScanFromString(items: seq<Item>, flush: string -> string)
    requires items != [] && items[0].Str?
    ensures var k := StrRunLen(items);
            Scan(items, None, 0, flush) ==
              if k == |items| then [] else [Str(flush(Joined(items[..k])))] + Scan(items[k..], None, 0, flush)
  {
    var it := items[0];
    var k := StrRunLen(items);
    assert Scan(items, None, 0, flush) == Scan(items[1..], Some(it.s), 0, flush) by {
      assert Step(it, None, 0, flush) == StepResult([], Some(it.s), 0);
    }
    ScanStringRun(items[1..], it.s, flush);
    assert StrRunLen(items[1..]) == k - 1;
    assert items[..k][1..] == items[1..][..k - 1];
    assert Joined(items[..k]) == it.s + Joined(items[1..][..k - 1]);
    assert items[1..][k - 1..] == items[k..];
  }

  /** At depth 0, a list that starts with BLOCK_START: the loop copies the scope up to its
      matching BLOCK_END. */
  lemma {:induction false} ScanFromScope(items: seq<Item>, flush: string -> string)
    requires items != [] && items[0].BStart?
    ensures var k := 1 + ScopeLen(items[1..], 1);
            k <= |items| && Scan(items, None, 0, flush) == items[..k] + Scan(items[k..], None, 0, flush)
  {
    var it := items[0];
    var rest := items[1..];
    var m := ScopeLen(rest, 1);
    var tail := Scan(rest[m..], None, 0, flush);
    assert Scan(items, None, 0, flush) == [it] + Scan(rest, None, 1, flush) by {
      assert Step(it, None, 0, flush) == StepResult([it], None, 1);
    }
    assert Scan(rest, None, 1, flush) == rest[..m] + tail by {
      ScanNestedScope(rest, 1, flush);
    }
    assert rest[m..] == items[1 + m..];
    assert items[..1 + m] == [it] + rest[..m];
  }

  /** The loop and the chunk description agree on every list. */
  lemma {:induction false} ScanIsMergeRef(items: seq<Item>, flush: string -> string)
    ensures Scan(items, None, 0, flush) == MergeRef(items, flush)
    decreases |items|
  {
    if items != [] {
      var it := items[0];
      if it.Str? {
        var k := StrRunLen(items);
        ScanFromString(items, flush);
        if k < |items| {
          ScanIsMergeRef(items[k..], flush);
        }
      } else if it.BStart? {
        var k := 1 + ScopeLen(items[1..], 1);
        ScanFromScope(items, flush);
        ScanIsMergeRef(items[k..], flush);
      } else {
        assert Step(it, None, 0, flush) == StepResult([it], None, 0);
        ScanIsMergeRef(items[1..], flush);
      }
    }
  }

  /** Merge, stated through the chunk description. */
  lemma {:induction false} MergeChunks(items: seq<Item>, pre: bool)
    ensures Merge(items, pre) == [BStart] + MergeRef(items, RunFlush(pre)) + [BEnd]
  {
    ScanIsMergeRef(items, RunFlush(pre));
  }

  // ---------------------------------------------------------------------------
  // Scanning a list in two parts

  /** $tmp_string and $innerblock once the loop has gone through `items`. */
  function After(items: seq<Item>, pending: Option<string>, depth: nat, flush: string -> string): (Option<string>, nat)
    decreases |items|
  {
    if items == [] then (pending, depth)
    else
      var st := Step(items[0], pending, depth, flush);
      After(items[1..], st.pending, st.depth, flush)
  }

  /** Scanning a + b is scanning a, then scanning b from the state a left behind. */
  lemma {:induction false} ScanAppend(a: seq<Item>, b: seq<Item>, pending: Option<string>, depth: nat,
                                      flush: string -> string)
    ensures var after := After(a, pending, depth, flush);
            Scan(a + b, pending, depth, flush) == Scan(a, pending, depth, flush) + Scan(b, after.0, after.1, flush)
    decreases |a|
  {
    if a == [] {
      assert a + b == b;
    } else {
      var st := Step(a[0], pending, depth, flush);
      var after := After(a, pending, depth, flush);
      assert after == After(a[1..], st.pending, st.depth, flush);
      var head := Scan(a[1..], st.pending, st.depth, flush);
      var tail := Scan(b, after.0, after.1, flush);
      assert Scan(a[1..] + b, st.pending, st.depth, flush) == head + tail by {
        ScanAppend(a[1..], b, st.pending, st.depth, flush);
      }
      assert (a + b)[0] == a[0] && (a + b)[1..] == a[1..] + b;
      assert Scan(a + b, pending, depth, flush) == st.out + Scan(a[1..] + b, st.pending, st.depth, flush);
      assert Scan(a, pending, depth, flush) == st.out + head;
      AppendAssoc(st.out, head, tail);
    }
  }

  /** What a non-string item makes the loop flush first: the pending run, if any. */
  function Flushed(pending: Option<string>, flush: string -> string): seq<Item>
  {
    if pending.Some? then [Str(flush(pending.value))] else []
  }

  /** A break count is copied through whatever state the loop is in, after the pending run
      (if any) is flushed; the state afterwards holds no pending run. */
  lemma {:induction false} ScanBreak(c: nat, rest: seq<Item>, pending: Option<string>, depth: nat, flush: string -> string)
    ensures Scan([Brk(c)] + rest, pending, depth, flush) == Flushed(pending, flush) + [Brk(c)] + Scan(rest, None, depth, flush)
  {
    assert Step(Brk(c), pending, depth, flush) == StepResult(Flushed(pending, flush) + [Brk(c)], None, depth);
    assert ([Brk(c)] + rest)[1..] == rest;
  }

  /** With nothing pending, a break count is copied and the loop goes on in the same state. */
  lemma {:induction false} ScanBreakCopied(c: nat, rest: seq<Item>, depth: nat, flush: string -> string)
    ensures Scan([Brk(c)] + rest, None, depth, flush) == [Brk(c)] + Scan(rest, None, depth, flush)
  {
    assert Step(Brk(c), None, depth, flush) == StepResult([Brk(c)], None, depth);
    assert ([Brk(c)] + rest)[1..] == rest;
  }

  /** A list that ends in n break counts scans to a list that ends in the same n counts. */
  lemma {:induction false} ScanEndsWithBreaks(items: seq<Item>, c: nat, n: nat, flush: string -> string)
    ensures var t := seq(n, _ => Brk(c));
            var r := Scan(items + t, None, 0, flush);
            |r| >= n && r[|r| - n..] == t
    decreases n
  {
    var t := seq(n, _ => Brk(c));
    if n > 0 {
      var t' := seq(n - 1, _ => Brk(c));
      assert t == [Brk(c)] + t';
      assert items + t == (items + [Brk(c)]) + t';
      var after := After(items, None, 0, flush);
      var p, d := after.0, after.1;
      ScanAppend(items, [Brk(c)] + t', None, 0, flush);
      ScanBreak(c, t', p, d, flush);
      ScanOnlyBreaks(t', c, d, flush);
    }
  }

  /** With nothing pending, a list of break counts scans to itself. */
  lemma {:induction false} ScanOnlyBreaks(t: seq<Item>, c: nat, depth: nat, flush: string -> string)
    requires forall i :: 0 <= i < |t| ==> t[i] == Brk(c)
    ensures Scan(t, None, depth, flush) == t
    decreases |t|
  {
    if t != [] {
      assert t == [Brk(c)] + t[1..];
      ScanBreakCopied(c, t[1..], depth, flush);
      ScanOnlyBreaks(t[1..], c, depth, flush);
    }
  }

  // ---------------------------------------------------------------------------
  // The loop

  /** The body of the merge loop for one item: what it appends to $new_items, and the new
      $tmp_string and $innerblock. */
  method MergeItem(item: Item, pending: Option<string>, innerBlock: nat, pre: bool)
      returns (emitted: seq<Item>, pending': Option<string>, innerBlock': nat)
    ensures StepResult(emitted, pending', innerBlock') == Step(item, pending, innerBlock, RunFlush(pre))
  {
    var flushed: seq<Item> := [];
    pending' := pending;
    if pending.Some? && !item.Str? {
      if pre {
        flushed := [Str(pending.value)];
      } else {
        flushed := [Str(Whitespace.NormaliseWhitespace(pending.value))];
      }
      RunFlushApply(pre, pending.value);
      pending' := None;
    }
    innerBlock' := innerBlock;
    if item.BStart? {
      innerBlock' := innerBlock' + 1;
    }
    if innerBlock' > 0 {
      if item.BEnd? {
        innerBlock' := innerBlock' - 1;
      }
      emitted := flushed + [item];
    } else if item.Str? {
      pending' := Some(Append(pending', item.s));
      emitted := flushed;
    } else {
      emitted := flushed + [item];
    }
  }

  lemma {:induction false} RunFlushApply(pre: bool, run: string)
    ensures RunFlush(pre)(run) == if pre then run else Whitespace.NormaliseWhitespace(run)
  {
  }

  /** The merge loop of textCollection, with $tmp_string as `pending` and $innerblock as
      `innerBlock`. */
  method MergePass(items: seq<Item>, pre: bool) returns (r: seq<Item>)
    ensures r == Merge(items, pre)
  {
    ghost var flush := RunFlush(pre);
    var newItems: seq<Item> := [];
    var pending: Option<string> := None;
    var innerBlock: nat := 0;
    var i := 0;
    while i < |items|
      invariant 0 <= i <= |items|
      invariant newItems + Scan(items[i..], pending, innerBlock, flush) == Scan(items, None, 0, flush)
    {
      assert items[i..][1..] == items[i + 1..];
      ghost var before := newItems;
      var emitted;
      emitted, pending, innerBlock := MergeItem(items[i], pending, innerBlock, pre);
      newItems := newItems + emitted;
      AppendAssoc(before, emitted, Scan(items[i + 1..], pending, innerBlock, flush));
      i := i + 1;
    }
    r := [BStart] + newItems + [BEnd];
  }
}
