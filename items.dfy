/** The items the inner text collection steps produce. The code mixes strings with
    integers: positive required line break counts and two negative sentinels,
    BLOCK_START = -1111111111 and BLOCK_END = -9999999999 (src/Innertext.php:11-12); here
    they are one tagged type. Everything that is not a string is an integer to the code. */
module Items {

  datatype Item = Str(s: string) | Brk(count: nat) | BStart | BEnd

  /** PHP's is_int on an item: break counts and both block markers. */
  predicate IsInt(it: Item) { !it.Str? }

  /** The items that are not strings, in order. */
  function NonStr(items: seq<Item>): (r: seq<Item>)
    ensures |r| <= |items|
    ensures forall i :: 0 <= i < |r| ==> !r[i].Str?
  {
    if items == [] then []
    else (if items[0].Str? then [] else [items[0]]) + NonStr(items[1..])
  }

  lemma {:induction false} NonStrAppend(a: seq<Item>, b: seq<Item>)
    ensures NonStr(a + b) == NonStr(a) + NonStr(b)
  {
    if a == [] {
      assert a + b == b;
    } else {
      assert (a + b)[0] == a[0] && (a + b)[1..] == a[1..] + b;
      NonStrAppend(a[1..], b);
    }
  }

  /** A list has no non-string item exactly when every item is a string. */
  lemma {:induction false} NonStrEmptyIff(items: seq<Item>)
    ensures NonStr(items) == [] <==> forall i :: 0 <= i < |items| ==> items[i].Str?
  {
    if items != [] {
      NonStrEmptyIff(items[1..]);
      if items[0].Str? {
        assert forall i :: 1 <= i < |items| ==> items[i] == items[1..][i - 1];
      } else {
        assert NonStr(items)[0] == items[0];
      }
    }
  }

  /** Block markers open and close properly nested scopes, given `open` scopes already open. */
  predicate NestedFrom(items: seq<Item>, open: nat)
  {
    if items == [] then open == 0
    else match items[0]
      case BStart => NestedFrom(items[1..], open + 1)
      case BEnd => open > 0 && NestedFrom(items[1..], open - 1)
      case _ => NestedFrom(items[1..], open)
  }

  predicate WellNested(items: seq<Item>) { NestedFrom(items, 0) }

  /** Every required line break count is positive. */
  predicate PositiveBreaks(items: seq<Item>)
  {
    forall it :: it in items && it.Brk? ==> it.count >= 1
  }

  /** A lone string is well formed. */
  lemma {:induction false} OneString(s: string)
    ensures WellNested([Str(s)]) && PositiveBreaks([Str(s)])
  {
    assert [Str(s)][1..] == [];
  }

  /** Nesting is decided by the non-string items alone. */
  lemma {:induction false} NestedIgnoresStrings(items: seq<Item>, open: nat)
    ensures NestedFrom(items, open) == NestedFrom(NonStr(items), open)
  {
    if items != [] {
      NestedIgnoresStrings(items[1..], open + 1);
      NestedIgnoresStrings(items[1..], open);
      if open > 0 {
        NestedIgnoresStrings(items[1..], open - 1);
      }
      if items[0].Str? {
        assert NonStr(items) == NonStr(items[1..]);
      } else {
        assert NonStr(items) == [items[0]] + NonStr(items[1..]);
        assert NonStr(items)[0] == items[0] && NonStr(items)[1..] == NonStr(items[1..]);
      }
    }
  }

  /** A well-nested stretch leaves the nesting depth where it found it. */
  lemma {:induction false} NestedConcat(a: seq<Item>, b: seq<Item>, j: nat, k: nat)
    requires NestedFrom(a, j) && NestedFrom(b, k)
    ensures NestedFrom(a + b, j + k)
  {
    if a == [] {
      assert a + b == b;
    } else {
      assert (a + b)[1..] == a[1..] + b;
      match a[0]
      case BStart => NestedConcat(a[1..], b, j + 1, k);
      case BEnd => NestedConcat(a[1..], b, j - 1, k);
      case _ => NestedConcat(a[1..], b, j, k);
    }
  }

  /** Wrapping a well-nested list in a pair of markers, or in a pair of breaks, keeps it
      well nested. */
  lemma {:induction false} WrapNested(x: seq<Item>, open: Item, close: Item)
    requires WellNested(x)
    requires (open == BStart && close == BEnd) || (open.Brk? && close.Brk?)
    ensures WellNested([open] + x + [close])
  {
    assert ([open] + x + [close])[1..] == x + [close];
    if open == BStart {
      assert NestedFrom([close], 1);
      NestedConcat(x, [close], 0, 1);
    } else {
      assert NestedFrom([close], 0);
      NestedConcat(x, [close], 0, 0);
    }
  }
}
