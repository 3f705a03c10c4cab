/** The white space processing rules of section 4.1 of CSS Text Module Level 3, as
    normaliseWhitespace applies them to one merged text run: a chain of eight rewrites,
    each written here as an explicit scan over the characters. */
module Whitespace {

  const LF: char := '\n'
  const CR: char := '\r'
  const TAB: char := '\t'
  const SPACE: char := ' '
  /** U+200B ZERO WIDTH SPACE, one character here (three bytes in the UTF-8 the code matches). */
  const ZWSP: char := '\U{200B}'

  predicate IsBlank(c: char) { c == SPACE || c == TAB }

  /** The shape every normalised run has: no line feed, no tab, no two adjacent spaces,
      and no space at either end. */
  predicate Collapsed(t: string) {
    LF !in t && TAB !in t &&
    (forall i :: 0 <= i < |t| - 1 ==> !(t[i] == SPACE && t[i + 1] == SPACE)) &&
    (|t| > 0 ==> t[0] != SPACE && t[|t| - 1] != SPACE)
  }

  // ---------------------------------------------------------------------------
  // Building blocks

  /** str_replace with one pattern: scans left to right, replaces non-overlapping
      occurrences and does not rescan the replacement text. */
  function ReplaceAll(s: string, pat: string, rep: string): (r: string)
    requires |pat| > 0
    decreases |s|
  {
    if |s| < |pat| then s
    else if s[..|pat|] == pat then rep + ReplaceAll(s[|pat|..], pat, rep)
    else [s[0]] + ReplaceAll(s[1..], pat, rep)
  }

  /** A pattern holding a character the subject lacks is never found. */
  lemma {:induction false} ReplaceAllAbsent(s: string, pat: string, rep: string, x: char)
    requires |pat| > 0 && x in pat && x !in s
    ensures ReplaceAll(s, pat, rep) == s
    decreases |s|
  {
    if |s| >= |pat| {
      assert s[..|pat|] != pat by {
        var j :| 0 <= j < |pat| && pat[j] == x;
        assert s[..|pat|][j] == s[j];
      }
      ReplaceAllAbsent(s[1..], pat, rep, x);
      assert s == [s[0]] + s[1..];
    }
  }

  /** str_replace of one character by another. */
  function Subst(s: string, from: char, to: char): (r: string)
    ensures |r| == |s|
    ensures forall i :: 0 <= i < |s| ==> r[i] == if s[i] == from then to else s[i]
  {
    seq(|s|, i requires 0 <= i < |s| => if s[i] == from then to else s[i])
  }

  /** preg_replace('@c+@', c): every maximal run of c becomes a single c. */
  function Squeeze(s: string, c: char): (r: string)
    ensures |r| <= |s|
    ensures forall i :: 0 <= i < |r| - 1 ==> !(r[i] == c && r[i + 1] == c)
    ensures forall x :: x in r ==> x in s
    ensures |s| > 0 ==> |r| > 0 && r[0] == s[0]
  {
    if |s| <= 1 then s
    else if s[0] == c && s[1] == c then Squeeze(s[1..], c)
    else [s[0]] + Squeeze(s[1..], c)
  }

  lemma {:induction false} SqueezeUnchanged(s: string, c: char)
    requires forall i :: 0 <= i < |s| - 1 ==> !(s[i] == c && s[i + 1] == c)
    ensures Squeeze(s, c) == s
  {
    if |s| > 1 {
      SqueezeUnchanged(s[1..], c);
      assert s == [s[0]] + s[1..];
    }
  }

  /** The characters of s in order, leaving out every c that comes right after a c;
      `afterC` says whether the character before s was a c. */
  function KeepFirstOfRuns(s: string, c: char, afterC: bool): string
    decreases |s|
  {
    if s == [] then []
    else (if afterC && s[0] == c then [] else [s[0]]) + KeepFirstOfRuns(s[1..], c, s[0] == c)
  }

  lemma {:induction false} KeepFirstAfterOther(t: string, c: char)
    requires t != [] && t[0] != c
    ensures KeepFirstOfRuns(t, c, true) == KeepFirstOfRuns(t, c, false)
  {
  }

  /** Squeeze keeps every character that is not a repeated c, in order: each maximal run of c
      becomes one c and nothing else changes. */
  lemma {:induction false} SqueezeIsFilter(s: string, c: char)
    ensures Squeeze(s, c) == KeepFirstOfRuns(s, c, false)
    decreases |s|
  {
    if |s| >= 2 {
      SqueezeIsFilter(s[1..], c);
      if s[0] == c && s[1] == c {
        assert s[1..][1..] == s[2..];
      } else if s[0] == c {
        KeepFirstAfterOther(s[1..], c);
      }
    } else if |s| == 1 {
      assert s[1..] == [];
    }
  }

  /** Length of the leading run of spaces and tabs. */
  function BlankRun(s: string): (k: nat)
    ensures k <= |s|
    ensures forall i :: 0 <= i < k ==> IsBlank(s[i])
    ensures k < |s| ==> !IsBlank(s[k])
  {
    if |s| > 0 && IsBlank(s[0]) then 1 + BlankRun(s[1..]) else 0
  }

  /** preg_replace('@[ \t]*\n[ \t]*@', "\n"): leftmost, greedy matching, so every space or
      tab joined to a line feed by a run of spaces and tabs disappears. */
  function StripAroundLF(s: string): (r: string)
    ensures |s| > 0 && !IsBlank(s[0]) ==> |r| > 0 && r[0] == s[0]
    decreases |s|
  {
    if s == [] then []
    else
      var k := BlankRun(s);
      if k < |s| && s[k] == LF then
        var t := s[k + 1..];
        [LF] + StripAroundLF(t[BlankRun(t)..])
      else if k > 0 then s[..k] + StripAroundLF(s[k..])
      else [s[0]] + StripAroundLF(s[1..])
  }

  /** No space or tab stands next to a line feed. */
  predicate NoBlankAtLF(r: string)
  {
    forall i :: 0 <= i < |r| - 1 ==> !(IsBlank(r[i]) && r[i + 1] == LF) && !(r[i] == LF && IsBlank(r[i + 1]))
  }

  lemma {:induction false} NoBlankAtLFJoin(a: string, b: string)
    requires NoBlankAtLF(a) && NoBlankAtLF(b)
    requires |a| > 0 && |b| > 0 ==> !(IsBlank(a[|a| - 1]) && b[0] == LF) && !(a[|a| - 1] == LF && IsBlank(b[0]))
    ensures NoBlankAtLF(a + b)
  {
    forall i | 0 <= i < |a + b| - 1
      ensures !(IsBlank((a + b)[i]) && (a + b)[i + 1] == LF) && !((a + b)[i] == LF && IsBlank((a + b)[i + 1]))
    {
      if i < |a| - 1 {
        assert (a + b)[i] == a[i] && (a + b)[i + 1] == a[i + 1];
      } else if i >= |a| {
        assert (a + b)[i] == b[i - |a|] && (a + b)[i + 1] == b[i - |a| + 1];
      }
    }
  }

  /** After step 1 no space or tab is left beside a line feed. */
  lemma {:induction false} StripAroundLFShape(s: string)
    ensures NoBlankAtLF(StripAroundLF(s))
    decreases |s|
  {
    if s != [] {
      var k := BlankRun(s);
      if k < |s| && s[k] == LF {
        var t := s[k + 1..];
        var u := t[BlankRun(t)..];
        StripAroundLFShape(u);
        NoBlankAtLFJoin([LF], StripAroundLF(u));
      } else if k > 0 {
        StripAroundLFShape(s[k..]);
        assert LF !in s[..k];
        NoBlankAtLFJoin(s[..k], StripAroundLF(s[k..]));
      } else {
        StripAroundLFShape(s[1..]);
        NoBlankAtLFJoin([s[0]], StripAroundLF(s[1..]));
      }
    }
  }

  lemma {:induction false} StripAroundLFUnchanged(s: string)
    requires LF !in s
    ensures StripAroundLF(s) == s
    decreases |s|
  {
    if s != [] {
      var k := BlankRun(s);
      if k > 0 {
        StripAroundLFUnchanged(s[k..]);
        assert s == s[..k] + s[k..];
      } else {
        StripAroundLFUnchanged(s[1..]);
        assert s == [s[0]] + s[1..];
      }
    }
  }

  /** str_replace([ZWSP LF, LF ZWSP], ZWSP): two passes, a line feed just after and then one
      just before a zero-width space is removed and the zero-width space kept. */
  function DropLFAroundZWSP(s: string): (r: string)
  {
    ReplaceAll(ReplaceAll(s, [ZWSP, LF], [ZWSP]), [LF, ZWSP], [ZWSP])
  }

  /** Number of leading characters of s that are in cs. */
  function LeadLen(s: string, cs: set<char>): (k: nat)
    ensures k <= |s|
    ensures forall i :: 0 <= i < k ==> s[i] in cs
    ensures k < |s| ==> s[k] !in cs
  {
    if |s| > 0 && s[0] in cs then 1 + LeadLen(s[1..], cs) else 0
  }

  /** Number of trailing characters of s that are in cs. */
  function TrailLen(s: string, cs: set<char>): (k: nat)
    ensures k <= |s|
    ensures forall i :: |s| - k <= i < |s| ==> s[i] in cs
    ensures k < |s| ==> s[|s| - 1 - k] !in cs
  {
    if |s| > 0 && s[|s| - 1] in cs then 1 + TrailLen(s[..|s| - 1], cs) else 0
  }

  /** PHP trim($s, $cs): what is left of s after removing a prefix and a suffix made only of
      characters in cs; it neither starts nor ends with one of them. */
  function Trim(s: string, cs: set<char>): (r: string)
    ensures LeadLen(s, cs) + |r| <= |s| && r == s[LeadLen(s, cs)..LeadLen(s, cs) + |r|]
    ensures forall i :: LeadLen(s, cs) + |r| <= i < |s| ==> s[i] in cs
    ensures |r| > 0 ==> r[0] !in cs && r[|r| - 1] !in cs
  {
    var a := LeadLen(s, cs);
    var t := s[a..];
    var k := TrailLen(t, cs);
    assert forall i :: a + |t| - k <= i < |s| ==> s[i] == t[i - a];
    t[..|t| - k]
  }

  /** The characters PHP's trim() removes by default. */
  const PhpTrimChars: set<char> := {' ', '\t', '\n', '\r', '\0', '\U{B}'}

  // ---------------------------------------------------------------------------
  // normaliseWhitespace

  /** Steps 5 and 6: no line feed and no tab survives. */
  lemma {:induction false} SubstsRemoveLFAndTab(s: string)
    ensures var u := Subst(Subst(s, LF, SPACE), TAB, SPACE); LF !in u && TAB !in u
  {
    var u := Subst(Subst(s, LF, SPACE), TAB, SPACE);
    assert forall i :: 0 <= i < |u| ==> u[i] != LF && u[i] != TAB;
  }

  /** Steps 7 and 8 bring a run without line feeds and tabs into collapsed shape. */
  lemma {:induction false} SqueezeTrimCollapsed(u: string)
    requires LF !in u && TAB !in u
    ensures Collapsed(Trim(Squeeze(u, SPACE), {SPACE}))
  {
    var v := Squeeze(u, SPACE);
    var r := Trim(v, {SPACE});
    assert LF !in v && TAB !in v;
    assert |r| > 0 ==> r[0] != SPACE && r[|r| - 1] != SPACE by {
      if |r| > 0 {
        assert r[0] !in {SPACE} && r[|r| - 1] !in {SPACE};
      }
    }
    SliceCollapsed(v, LeadLen(v, {SPACE}), r);
  }

  /** A slice of a run without line feeds, tabs or double spaces, that does not start or end
      with a space, is collapsed. */
  lemma {:induction false} SliceCollapsed(v: string, a: nat, r: string)
    requires a + |r| <= |v| && r == v[a..a + |r|]
    requires LF !in v && TAB !in v
    requires forall i :: 0 <= i < |v| - 1 ==> !(v[i] == SPACE && v[i + 1] == SPACE)
    requires |r| > 0 ==> r[0] != SPACE && r[|r| - 1] != SPACE
    ensures Collapsed(r)
  {
    forall i | 0 <= i < |r|
      ensures r[i] != LF && r[i] != TAB
    {
      assert r[i] == v[a + i];
    }
    forall i | 0 <= i < |r| - 1
      ensures !(r[i] == SPACE && r[i + 1] == SPACE)
    {
      assert r[i] == v[a + i] && r[i + 1] == v[a + i + 1];
    }
  }

  /** The whole chain: CRLF to LF, strip spaces and tabs around LF, collapse LF runs, drop an
      LF next to U+200B, LF to space, tab to space, collapse spaces, trim spaces. */
  function NormaliseWhitespace(s: string): (r: string)
    ensures LF !in r && TAB !in r
    ensures forall i :: 0 <= i < |r| - 1 ==> !(r[i] == SPACE && r[i + 1] == SPACE)
    ensures |r| > 0 ==> r[0] != SPACE && r[|r| - 1] != SPACE
  {
    var s4 := DropLFAroundZWSP(Squeeze(StripAroundLF(ReplaceAll(s, [CR, LF], [LF])), LF));
    var s6 := Subst(Subst(s4, LF, SPACE), TAB, SPACE);
    SubstsRemoveLFAndTab(s4);
    SqueezeTrimCollapsed(s6);
    Trim(Squeeze(s6, SPACE), {SPACE})
  }

  lemma {:induction false} SubstAbsent(t: string, from: char, to: char)
    requires from !in t
    ensures Subst(t, from, to) == t
  {
  }

  /** A run already in collapsed shape is a fixed point of every step of the chain. */
  lemma {:induction false} NormaliseFixesCollapsed(t: string)
    requires Collapsed(t)
    ensures NormaliseWhitespace(t) == t
  {
    ReplaceAllAbsent(t, [CR, LF], [LF], LF);
    StripAroundLFUnchanged(t);
    SqueezeUnchanged(t, LF);
    ReplaceAllAbsent(t, [ZWSP, LF], [ZWSP], LF);
    ReplaceAllAbsent(t, [LF, ZWSP], [ZWSP], LF);
    assert DropLFAroundZWSP(t) == t;
    SubstAbsent(t, LF, SPACE);
    SubstAbsent(t, TAB, SPACE);
    SqueezeUnchanged(t, SPACE);
    TrimUnchanged(t, {SPACE});
  }

  lemma {:induction false} TrimUnchanged(t: string, cs: set<char>)
    requires |t| > 0 ==> t[0] !in cs && t[|t| - 1] !in cs
    ensures Trim(t, cs) == t
  {
  }

  /** normaliseWhitespace is idempotent. */
  lemma {:induction false} NormaliseIdempotent(s: string)
    ensures NormaliseWhitespace(NormaliseWhitespace(s)) == NormaliseWhitespace(s)
  {
    NormaliseFixesCollapsed(NormaliseWhitespace(s));
  }
}
