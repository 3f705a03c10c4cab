/** The read-only view of a DOM tree that the inner-text algorithm walks:
    element and text nodes, attribute lookup, and ASCII lower-casing of names. */
module Dom {

  datatype Option<T> = None | Some(value: T)

  /** A node of the tree. Text nodes are childless by construction; the parent of a
      node is not stored here, the walk passes it down (see Collection.Collect). */
  datatype Node =
    | Text(data: string)
    | Element(tag: string, attrs: map<string, string>, children: seq<Node>)

  /** ASCII lower-casing of one character, as PHP's strtolower does. */
  function LowerChar(c: char): (r: char)
    ensures 'A' <= c <= 'Z' ==> 'a' <= r <= 'z' && r as int - c as int == 32
    ensures !('A' <= c <= 'Z') ==> r == c
  {
    if 'A' <= c <= 'Z' then (c as int + 32) as char else c
  }

  function Lower(s: string): (r: string)
    ensures |r| == |s|
    ensures forall i :: 0 <= i < |s| ==> r[i] == LowerChar(s[i])
    ensures forall i :: 0 <= i < |r| ==> !('A' <= r[i] <= 'Z')
  {
    seq(|s|, i requires 0 <= i < |s| => LowerChar(s[i]))
  }

  /** Lower-casing twice is lower-casing once. */
  lemma {:induction false} LowerIdempotent(s: string)
    ensures Lower(Lower(s)) == Lower(s)
  {
    var l := Lower(s);
    forall i | 0 <= i < |l|
      ensures LowerChar(l[i]) == l[i]
    {
      assert !('A' <= l[i] <= 'Z');
    }
  }

  /** Sequence concatenation is associative; the proofs about list-building loops use it to
      regroup what has been built so far. */
  lemma {:induction false} AppendAssoc<T>(a: seq<T>, b: seq<T>, c: seq<T>)
    ensures (a + b) + c == a + (b + c)
  {
  }

  /** hasAttribute */
  predicate HasAttr(attrs: map<string, string>, name: string) {
    name in attrs
  }

  /** getAttribute: the empty string when the attribute is absent. */
  function GetAttr(attrs: map<string, string>, name: string): (r: string)
    ensures name !in attrs ==> r == ""
    ensures name in attrs ==> r == attrs[name]
  {
    if name in attrs then attrs[name] else ""
  }
}
