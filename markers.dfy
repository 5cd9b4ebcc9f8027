/**
 * Hand-written recognisers for the four log-marker patterns of the test:
 * for each family (before-GC, after-GC) a well-formed pattern
 *   `Name:\[Verifying\s+([^]\s]+\s+)+\]`
 * and a corrupted pattern with a negative lookahead
 *   `Name:(?!\[Verifying[^]]+\])`.
 * A pattern "occurs" in a text when it matches starting at some position,
 * which is what a regular-expression `find` reports.
 */
module Markers {

  /** The two marker families. */
  datatype Family = BeforeGC | AfterGC

  function MarkerName(f: Family): string
  {
    match f
    case BeforeGC => "VerifyBeforeGC"
    case AfterGC => "VerifyAfterGC"
  }

  /** The marker name and its colon: the literal both patterns of a family start with. */
  function Head(f: Family): string
  {
    MarkerName(f) + ":"
  }

  /** The literal that opens a populated marker payload. */
  const Opening := "[Verifying"

  /** `\s` in a Java regular expression: space, tab, newline, vertical tab, form feed, carriage return. */
  predicate IsSpace(c: char)
  {
    c == ' ' || c == '\t' || c == '\n' || c == '\U{B}' || c == '\U{C}' || c == '\r'
  }

  /** `[^]\s]`: a character of a subsystem token (neither `]` nor whitespace). */
  predicate IsTokenChar(c: char)
  {
    c != ']' && !IsSpace(c)
  }

  predicate StartsWith(u: string, prefix: string)
  {
    |prefix| <= |u| && u[..|prefix|] == prefix
  }

  /** The length of the longest whitespace prefix of `u`. */
  function SpaceRun(u: string): (n: nat)
    ensures n <= |u|
    ensures n < |u| ==> !IsSpace(u[n])
  {
    if u != [] && IsSpace(u[0]) then 1 + SpaceRun(u[1..]) else 0
  }

  /** The length of the longest prefix of `u` made of token characters. */
  function TokenRun(u: string): (n: nat)
    ensures n <= |u|
    ensures n < |u| ==> !IsTokenChar(u[n])
  {
    if u != [] && IsTokenChar(u[0]) then 1 + TokenRun(u[1..]) else 0
  }

  /** The index of the first `]` in `u`, or `|u|` when there is none. */
  function CloseAt(u: string): (e: nat)
    ensures e <= |u|
    ensures e < |u| ==> u[e] == ']'
  {
    if u == [] then 0 else if u[0] == ']' then 0 else 1 + CloseAt(u[1..])
  }

  lemma {:induction false} SpaceRunAt(u: string, k: nat)
    requires k < SpaceRun(u)
    ensures IsSpace(u[k])
  {
    if k > 0 { SpaceRunAt(u[1..], k - 1); }
  }

  lemma {:induction false} TokenRunAt(u: string, k: nat)
    requires k < TokenRun(u)
    ensures IsTokenChar(u[k])
  {
    if k > 0 { TokenRunAt(u[1..], k - 1); }
  }

  lemma {:induction false} CloseAtBefore(u: string, k: nat)
    requires k < CloseAt(u)
    ensures u[k] != ']'
  {
    if k > 0 { CloseAtBefore(u[1..], k - 1); }
  }

  /**
   * `([^]\s]+\s+)+\]` at the start of `u`. Token characters, whitespace and
   * `]` are disjoint classes, so maximal runs are the only way to match and
   * the scan needs no backtracking.
   */
  predicate Groups(u: string)
    decreases |u|
  {
    var t := TokenRun(u);
    t > 0 &&
    var w := t + SpaceRun(u[t..]);
    w > t && w < |u| && (u[w] == ']' || Groups(u[w..]))
  }

  /** `\s+([^]\s]+\s+)+\]` at the start of `u`: the part after `Name:[Verifying`. */
  predicate Payload(u: string)
  {
    var a := SpaceRun(u);
    a > 0 && Groups(u[a..])
  }

  /** `[Verifying[^]]+\]` at the start of `u`: the body of the negative lookahead. */
  predicate Bracketed(u: string)
  {
    StartsWith(u, Opening) &&
    var e := CloseAt(u[|Opening|..]);
    0 < e < |u| - |Opening|
  }

  /** The well-formed pattern with marker literal `h` matches at the start of `u`. */
  predicate WellFormedStart(u: string, h: string)
  {
    StartsWith(u, h + Opening) && Payload(u[|h + Opening|..])
  }

  /** The corrupted pattern with marker literal `h` matches at the start of `u`. */
  predicate CorruptedStart(u: string, h: string)
  {
    StartsWith(u, h) && !Bracketed(u[|h|..])
  }

  /** The well-formed pattern of family `f` matches at position `p` of `s`. */
  predicate WellFormedAt(s: string, p: nat, f: Family)
    requires p <= |s|
  {
    WellFormedStart(s[p..], Head(f))
  }

  /** The corrupted pattern of family `f` matches at position `p` of `s`. */
  predicate CorruptedAt(s: string, p: nat, f: Family)
    requires p <= |s|
  {
    CorruptedStart(s[p..], Head(f))
  }

  predicate WellFormedOccurs(s: string, f: Family)
  {
    exists p: nat :: p <= |s| && WellFormedAt(s, p, f)
  }

  predicate CorruptedOccurs(s: string, f: Family)
  {
    exists p: nat :: p <= |s| && CorruptedAt(s, p, f)
  }

  // ---------------------------------------------------------------------
  // A reference description of the well-formed payload, in words rather
  // than as a scan: up to the first `]` (which must exist) the payload is
  // non-empty, begins and ends with whitespace and holds a token character.
  // ---------------------------------------------------------------------

  predicate Populated(u: string)
  {
    var e := CloseAt(u);
    0 < e < |u| && IsSpace(u[0]) && IsSpace(u[e - 1]) &&
    exists k :: 0 <= k < e && IsTokenChar(u[k])
  }

  /** The same description for the token groups alone: they begin with a token character. */
  predicate TokenList(u: string)
  {
    var e := CloseAt(u);
    0 < e < |u| && IsTokenChar(u[0]) && IsSpace(u[e - 1])
  }

  lemma {:induction false} CloseAtIs(u: string, e: nat)
    requires e <= |u|
    requires forall k :: 0 <= k < e ==> u[k] != ']'
    requires e < |u| ==> u[e] == ']'
    ensures CloseAt(u) == e
  {
    if e > 0 {
      assert u[0] != ']';
      CloseAtIs(u[1..], e - 1);
    }
  }

  lemma CloseAtDrop(u: string, w: nat)
    requires w <= CloseAt(u)
    ensures CloseAt(u[w..]) == CloseAt(u) - w
  {
    forall k | 0 <= k < CloseAt(u) - w ensures u[w..][k] != ']' {
      CloseAtBefore(u, w + k);
    }
    CloseAtIs(u[w..], CloseAt(u) - w);
  }

  /** The ends of one round of the group scan: a token run, then a whitespace run. */
  lemma GroupRunEnds(u: string, t: nat, w: nat)
    requires t == TokenRun(u) && t > 0
    requires w == t + SpaceRun(u[t..])
    ensures t <= w <= |u|
    ensures IsTokenChar(u[0])
    ensures w < |u| ==> !IsSpace(u[w])
    ensures w > t ==> IsSpace(u[w - 1])
  {
    TokenRunAt(u, 0);
    if w < |u| {
      assert u[w] == u[t..][w - t];
    }
    if w > t {
      SpaceRunAt(u[t..], w - t - 1);
    }
  }

  /** One round of the group scan holds no `]`, and its whitespace run is not empty before the first `]`. */
  lemma GroupRoundClose(u: string, t: nat, w: nat)
    requires t == TokenRun(u) && t > 0
    requires w == t + SpaceRun(u[t..])
    ensures CloseAt(u) >= w
    ensures t < CloseAt(u) ==> w > t
  {
    var e := CloseAt(u);
    if e < w {
      if e < t {
        TokenRunAt(u, e);
      } else {
        SpaceRunAt(u[t..], e - t);
      }
    }
    if t < e {
      CloseAtBefore(u, t);
      assert u[t..][0] == u[t];
    }
  }

  /** Dropping a whole group keeps the described shape, as long as a token character starts what remains. */
  lemma TokenListDrop(u: string, w: nat)
    requires 0 < w < CloseAt(u)
    requires IsTokenChar(u[0]) && IsTokenChar(u[w])
    ensures TokenList(u) <==> TokenList(u[w..])
  {
    var e := CloseAt(u);
    CloseAtDrop(u, w);
    assert u[w..][0] == u[w];
    assert u[w..][e - w - 1] == u[e - 1];
  }

  /** The scan of the token groups accepts only the described shape. */
  lemma {:induction false} GroupsSound(u: string)
    requires Groups(u)
    ensures TokenList(u)
    decreases |u|
  {
    var t := TokenRun(u);
    var w := t + SpaceRun(u[t..]);
    GroupRunEnds(u, t, w);
    GroupRoundClose(u, t, w);
    if u[w] == ']' {
      if CloseAt(u) > w { CloseAtBefore(u, w); }
    } else {
      GroupsSound(u[w..]);
      TokenListDrop(u, w);
    }
  }

  /** The scan of the token groups accepts every string of the described shape. */
  lemma {:induction false} GroupsComplete(u: string)
    requires TokenList(u)
    ensures Groups(u)
    decreases |u|
  {
    var t := TokenRun(u);
    var e := CloseAt(u);
    var w := t + SpaceRun(u[t..]);
    GroupRunEnds(u, t, w);
    GroupRoundClose(u, t, w);
    assert t < e by {
      if t >= e { TokenRunAt(u, e - 1); }
    }
    if w < e {
      CloseAtBefore(u, w);
      TokenListDrop(u, w);
      GroupsComplete(u[w..]);
    }
  }

  lemma GroupsIff(u: string)
    ensures Groups(u) <==> TokenList(u)
  {
    if Groups(u) { GroupsSound(u); }
    if TokenList(u) { GroupsComplete(u); }
  }

  /** The scan of a marker payload accepts exactly the described shape. */
  lemma PayloadIff(u: string)
    ensures Payload(u) <==> Populated(u)
  {
    var a := SpaceRun(u);
    var e := CloseAt(u);
    if a > 0 {
      SpaceRunAt(u, 0);
      assert e >= a by {
        if e < a { SpaceRunAt(u, e); }
      }
      GroupsIff(u[a..]);
      if Populated(u) {
        var k :| 0 <= k < e && IsTokenChar(u[k]);
        assert a <= k by {
          if k < a { SpaceRunAt(u, k); }
        }
        CloseAtBefore(u, a);
        assert IsTokenChar(u[a]);
        CloseAtDrop(u, a);
        assert u[a..][0] == u[a];
        assert u[a..][e - a - 1] == u[e - 1];
      }
      if Payload(u) {
        CloseAtDrop(u, a);
        assert u[a..][0] == u[a];
        assert u[a..][e - a - 1] == u[e - 1];
        assert IsTokenChar(u[a]);
      }
    }
  }

  /** A populated payload after the opening literal satisfies the lookahead body. */
  lemma PayloadBracketed(v: string)
    requires StartsWith(v, Opening) && Payload(v[|Opening|..])
    ensures Bracketed(v)
  {
    PayloadIff(v[|Opening|..]);
  }

  /**
   * A reference description of the lookahead body `[Verifying[^]]+\]`:
   * the opening literal, then `n > 0` characters none of which is `]`,
   * then a `]`.
   */
  predicate ClosedAfter(v: string, n: nat)
  {
    StartsWith(v, Opening) && 0 < n && |Opening| + n < |v| && v[|Opening| + n] == ']' &&
    forall k :: |Opening| <= k < |Opening| + n ==> v[k] != ']'
  }

  /**
   * The lookahead scan agrees with the description, so the corrupted pattern
   * matches exactly where the marker literal is followed by anything but a
   * non-empty bracketed `[Verifying...]`.
   */
  lemma CorruptedIff(u: string, h: string)
    requires |h| <= |u|
    ensures Bracketed(u[|h|..]) <==> exists n: nat :: ClosedAfter(u[|h|..], n)
    ensures CorruptedStart(u, h) <==> StartsWith(u, h) && forall n: nat :: !ClosedAfter(u[|h|..], n)
  {
    var v := u[|h|..];
    var o := |Opening|;
    if Bracketed(v) {
      var e := CloseAt(v[o..]);
      assert v[o + e] == v[o..][e];
      forall k | o <= k < o + e ensures v[k] != ']' {
        CloseAtBefore(v[o..], k - o);
      }
      assert ClosedAfter(v, e);
    }
    if exists n: nat :: ClosedAfter(v, n) {
      var n: nat :| ClosedAfter(v, n);
      forall k | 0 <= k < n ensures v[o..][k] != ']' {
        assert v[o..][k] == v[o + k];
      }
      assert v[o..][n] == v[o + n];
      CloseAtIs(v[o..], n);
    }
  }

  lemma StartsWithConcat(u: string, x: string, y: string)
    requires StartsWith(u, x + y)
    ensures StartsWith(u, x) && StartsWith(u[|x|..], y)
    ensures u[|x|..][|y|..] == u[|x + y|..]
  {
    assert u[..|x|] == (x + y)[..|x|];
    assert u[|x|..][..|y|] == (x + y)[|x|..];
  }

  /** After any marker literal, a well-formed match is followed by a satisfied lookahead body. */
  lemma ExclusiveStart(u: string, h: string)
    ensures WellFormedStart(u, h) ==> !CorruptedStart(u, h)
  {
    if WellFormedStart(u, h) {
      StartsWithConcat(u, h, Opening);
      PayloadBracketed(u[|h|..]);
    }
  }

  lemma Exclusive(s: string, p: nat, f: Family)
    requires p <= |s|
    ensures WellFormedAt(s, p, f) ==> !CorruptedAt(s, p, f)
  {
    ExclusiveStart(s[p..], Head(f));
  }

  // ---------------------------------------------------------------------
  // The sample lines of the test's own comments, as test vectors.
  // ---------------------------------------------------------------------

  /** The subsystem list of the sample well-formed marker, up to its closing bracket. */
  const SampleSubsystems := " threads heap tenured eden" + " syms strs zone dict" + " metaspace chunks hand" + " C-heap code cache "

  /** The sample well-formed marker line of family `f`. */
  function WellFormedSample(f: Family): string
  {
    Head(f) + Opening + (SampleSubsystems + "]")
  }

  /** The sample corrupted marker line of family `f`: the bare marker name three times. */
  function CorruptedSample(f: Family): string
  {
    Head(f) + (" " + Head(f) + (" " + Head(f)))
  }

  /** A first `]` that follows a bracket-free prefix is found after that prefix. */
  lemma {:induction false} CloseAtAfter(v: string, rest: string)
    requires ']' !in v
    ensures CloseAt(v + rest) == |v| + CloseAt(rest)
  {
    if v != [] {
      assert (v + rest)[1..] == v[1..] + rest;
      assert v[0] in v;
      CloseAtAfter(v[1..], rest);
    } else {
      assert v + rest == rest;
    }
  }

  /** A marker name, the opening literal and a well-formed payload make a well-formed match. */
  lemma WellFormedLine(f: Family, u: string)
    requires Payload(u)
    ensures WellFormedAt(Head(f) + Opening + u, 0, f)
  {
    var s := Head(f) + Opening + u;
    var h := Head(f) + Opening;
    assert s[0..] == s;
    assert s[..|h|] == h;
    assert s[|h|..] == u;
  }

  lemma SampleHasNoClose()
    ensures ']' !in SampleSubsystems
  {
    assert ']' !in " threads heap tenured eden";
    assert ']' !in " syms strs zone dict";
    assert ']' !in " metaspace chunks hand";
    assert ']' !in " C-heap code cache ";
  }

  lemma SamplePayload()
    ensures Payload(SampleSubsystems + "]")
  {
    var u := SampleSubsystems + "]";
    SampleHasNoClose();
    CloseAtAfter(SampleSubsystems, "]");
    assert u[0] == ' ' && u[1] == 't';
    assert u[|SampleSubsystems| - 1] == ' ';
    PayloadIff(u);
  }

  lemma WellFormedSampleMatches(f: Family)
    ensures WellFormedAt(WellFormedSample(f), 0, f)
  {
    SamplePayload();
    WellFormedLine(f, SampleSubsystems + "]");
  }

  /** Text that does not start with `[` cannot satisfy the lookahead body. */
  lemma NotBracketed(rest: string)
    requires rest != [] && rest[0] != '['
    ensures !Bracketed(rest)
  {
  }

  lemma CorruptedSampleMatches(f: Family)
    ensures CorruptedAt(CorruptedSample(f), 0, f)
  {
    var s := CorruptedSample(f);
    var h := Head(f);
    var rest := " " + h + (" " + h);
    assert s[0..] == s;
    assert s[..|h|] == h;
    assert s[|h|..] == rest;
    NotBracketed(rest);
  }

  /** A prefix that differs from `u` at index `k` does not start it. */
  lemma NotStartsWith(u: string, prefix: string, k: nat)
    requires k < |prefix| && k < |u| && u[k] != prefix[k]
    ensures !StartsWith(u, prefix)
  {
  }

  /** A text in which the marker name of `f` never appears matches neither pattern of `f`. */
  lemma AbsentMarker(s: string, f: Family)
    requires forall p: nat :: p <= |s| ==> !StartsWith(s[p..], Head(f))
    ensures !WellFormedOccurs(s, f) && !CorruptedOccurs(s, f)
  {
    forall p: nat | p <= |s| ensures !WellFormedAt(s, p, f) {
      if StartsWith(s[p..], Head(f) + Opening) {
        StartsWithConcat(s[p..], Head(f), Opening);
      }
    }
  }

  /** A match of either pattern of family `f` ends its marker name with a colon. */
  lemma ColonAfterName(s: string, p: nat, f: Family)
    requires p <= |s| && StartsWith(s[p..], Head(f))
    ensures p + |Head(f)| <= |s| && s[p + |Head(f)| - 1] == ':'
  {
    assert s[p..][..|Head(f)|][|Head(f)| - 1] == ':';
  }

  /**
   * The two patterns of a family are exclusive but not exhaustive: a marker
   * whose bracket holds only whitespace is matched by neither, because the
   * well-formed pattern wants a token and the lookahead accepts any
   * non-empty bracket content.
   */
  lemma NotExhaustive(f: Family)
    ensures var s := Head(f) + "[Verifying ]";
      !WellFormedOccurs(s, f) && !CorruptedOccurs(s, f)
  {
    var s := Head(f) + "[Verifying ]";
    var h := Head(f);
    var tail := "[Verifying ]";
    assert ':' !in tail;
    assert s[|h|..] == tail;
    forall p: nat | p <= |s| ensures !WellFormedAt(s, p, f) && !CorruptedAt(s, p, f) {
      if StartsWith(s[p..], h) {
        ColonAfterName(s, p, f);
        assert p == 0;
        assert s[0..] == s && s[..|h|] == h;
        assert s[|h| + |Opening|..] == " ]";
        assert SpaceRun(" ]") == 1 && TokenRun(" ]"[1..]) == 0;
        assert CloseAt(tail[|Opening|..]) == 1;
      } else {
        assert !StartsWith(s[p..], h + Opening) by {
          if StartsWith(s[p..], h + Opening) { StartsWithConcat(s[p..], h, Opening); }
        }
      }
    }
  }
}
