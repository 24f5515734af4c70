/** Pre-processing of the generative model's reply in `fetchGeminiData`:
    every "```json" marker is removed, then every "```" marker, then the
    text is trimmed, before it is handed to a JSON parser (not modelled). */
module Fence {

  /** The opening marker of a Markdown code block tagged as JSON. */
  const JsonFence: string := "```json"

  /** A bare Markdown code-block marker. */
  const TripleTick: string := "```"

  /** The code points that ECMAScript's String.prototype.trim removes:
      the WhiteSpace set (tab, vertical tab, form feed, space, no-break
      space, byte-order mark and the other space separators) and the
      LineTerminator set (line feed, carriage return, line and paragraph
      separators). */
  predicate IsWhitespace(c: char) {
    || c == '\t' || c == '\U{B}' || c == '\U{C}' || c == ' ' || c == '\U{A0}' || c == '\U{FEFF}'
    || c == '\U{1680}' || ('\U{2000}' <= c <= '\U{200A}') || c == '\U{202F}' || c == '\U{205F}'
    || c == '\U{3000}'
    || c == '\n' || c == '\r' || c == '\U{2028}' || c == '\U{2029}'
  }

  /** `pat` stands in `s` at position `i`. */
  predicate MatchesAt(s: string, pat: string, i: int) {
    0 <= i && i + |pat| <= |s| && s[i..i + |pat|] == pat
  }

  /** `pat` occurs in `s` as a contiguous block. */
  ghost predicate Occurs(pat: string, s: string) {
    exists i :: MatchesAt(s, pat, i)
  }

  /** Neither end of `s` is whitespace. */
  predicate IsTrimmed(s: string) {
    s == [] || (!IsWhitespace(s[0]) && !IsWhitespace(s[|s| - 1]))
  }

  // ---------------------------------------------------------------------
  // Global replacement of a literal pattern by the empty string
  // ---------------------------------------------------------------------

  /** A global replace of a literal pattern by the empty string: scan left to right;
      where `pat` starts, drop it and resume after it; elsewhere keep one
      character and move on. Matches therefore never overlap. */
  function RemoveAll(s: string, pat: string): (r: string)
    requires pat != []
    ensures |r| <= |s|
    decreases |s|
  {
    if |s| < |pat| then s
    else if s[..|pat|] == pat then
      assert s == s[..|pat|] + s[|pat|..];
      RemoveAll(s[|pat|..], pat)
    else
      assert s == [s[0]] + s[1..];
      [s[0]] + RemoveAll(s[1..], pat)
  }

  /** Replacing only deletes characters. */
  lemma {:induction false} RemoveAllShrinks(s: string, pat: string)
    requires pat != []
    ensures multiset(RemoveAll(s, pat)) <= multiset(s)
    decreases |s|
  {
    if |s| < |pat| {
    } else if s[..|pat|] == pat {
      RemoveAllShrinks(s[|pat|..], pat);
      assert s == pat + s[|pat|..];
    } else {
      RemoveAllShrinks(s[1..], pat);
      assert s == [s[0]] + s[1..];
    }
  }

  /** A character not in `pat` keeps its number of occurrences. */
  lemma {:induction false} RemoveAllKeeps(s: string, pat: string, c: char)
    requires pat != [] && c !in pat
    ensures multiset(RemoveAll(s, pat))[c] == multiset(s)[c]
    decreases |s|
  {
    if |s| < |pat| {
    } else if s[..|pat|] == pat {
      RemoveAllKeeps(s[|pat|..], pat, c);
      assert s == pat + s[|pat|..];
      assert multiset(pat)[c] == 0;
    } else {
      RemoveAllKeeps(s[1..], pat, c);
      assert s == [s[0]] + s[1..];
    }
  }

  /** Replacing only deletes characters, and only characters of `pat`:
      every other character keeps its number of occurrences. */
  lemma RemoveAllOnlyDeletes(s: string, pat: string)
    requires pat != []
    ensures multiset(RemoveAll(s, pat)) <= multiset(s)
    ensures forall c :: c !in pat ==> multiset(RemoveAll(s, pat))[c] == multiset(s)[c]
  {
    RemoveAllShrinks(s, pat);
    forall c | c !in pat
      ensures multiset(RemoveAll(s, pat))[c] == multiset(s)[c]
    {
      RemoveAllKeeps(s, pat, c);
    }
  }

  /** A block that does not occur in `s` does not occur in its tail. */
  lemma AbsentFromTail(pat: string, s: string)
    requires s != [] && !Occurs(pat, s)
    ensures !Occurs(pat, s[1..])
  {
    forall i ensures !MatchesAt(s[1..], pat, i) {
      if 0 <= i && i + |pat| <= |s| - 1 {
        assert s[1..][i..i + |pat|] == s[i + 1..i + 1 + |pat|];
        assert !MatchesAt(s, pat, i + 1);
      }
    }
  }

  /** Where `pat` does not occur, replacing it changes nothing. */
  lemma {:induction false} RemoveAllAbsent(s: string, pat: string)
    requires pat != []
    requires !Occurs(pat, s)
    ensures RemoveAll(s, pat) == s
    decreases |s|
  {
    if |s| >= |pat| {
      assert !MatchesAt(s, pat, 0);
      AbsentFromTail(pat, s);
      RemoveAllAbsent(s[1..], pat);
      assert s == [s[0]] + s[1..];
    }
  }

  // ---------------------------------------------------------------------
  // Runs of backticks under removal of "```"
  // ---------------------------------------------------------------------

  /** A run of `n` backticks. */
  function Ticks(n: nat): string {
    seq(n, _ => '`')
  }

  /** The number of backticks at the front of `s`. */
  function LeadingTicks(s: string): (n: nat)
    ensures n <= |s|
  {
    if s != [] && s[0] == '`' then 1 + LeadingTicks(s[1..]) else 0
  }

  /** `LeadingTicks` measures the maximal run of backticks at the front. */
  lemma {:induction false} LeadingTicksIsRun(s: string)
    ensures s == Ticks(LeadingTicks(s)) + s[LeadingTicks(s)..]
    ensures LeadingTicks(s) == |s| || s[LeadingTicks(s)] != '`'
    decreases |s|
  {
    if s != [] && s[0] == '`' {
      LeadingTicksIsRun(s[1..]);
      assert Ticks(LeadingTicks(s)) == [s[0]] + Ticks(LeadingTicks(s[1..]));
    }
  }

  /** Removing "```" from any text: the leading run of backticks keeps
      n mod 3 of its n backticks, and the text after the run is processed
      on its own. */
  lemma RemoveTicksByRuns(s: string)
    ensures RemoveAll(s, TripleTick)
         == Ticks(LeadingTicks(s) % 3) + RemoveAll(s[LeadingTicks(s)..], TripleTick)
  {
    LeadingTicksIsRun(s);
    RunCollapses(LeadingTicks(s), s[LeadingTicks(s)..]);
  }

  /** A string of three characters or more starts with "```" exactly when
      its first three characters are backticks. */
  lemma FenceAtFront(s: string)
    requires |s| >= 3
    ensures s[..3] == TripleTick <==> s[0] == '`' && s[1] == '`' && s[2] == '`'
  {
    if s[0] == '`' && s[1] == '`' && s[2] == '`' {
      assert s[..3] == [s[0], s[1], s[2]];
    }
  }

  /** A "```" at the front is dropped. */
  lemma FenceDropped(t: string)
    ensures RemoveAll(TripleTick + t, TripleTick) == RemoveAll(t, TripleTick)
  {
    var s := TripleTick + t;
    assert s[..3] == TripleTick;
    assert s[3..] == t;
  }

  /** A backtick at the front survives unless two more follow it. */
  lemma TickKept(t: string)
    requires |t| < 2 || t[0] != '`' || t[1] != '`'
    ensures RemoveAll(['`'] + t, TripleTick) == ['`'] + RemoveAll(t, TripleTick)
  {
    var s := ['`'] + t;
    if |s| >= 3 {
      FenceAtFront(s);
    }
    assert s[1..] == t;
  }

  /** One or two backticks followed by anything but a backtick are kept. */
  lemma ShortRunKept(n: nat, t: string)
    requires 0 < n < 3
    requires t == [] || t[0] != '`'
    ensures RemoveAll(Ticks(n) + t, TripleTick) == Ticks(n) + RemoveAll(t, TripleTick)
  {
    var tick := ['`'];
    if n == 2 {
      calc {
        RemoveAll(Ticks(n) + t, TripleTick);
        { assert Ticks(n) + t == tick + (tick + t); }
        RemoveAll(tick + (tick + t), TripleTick);
        { TickKept(tick + t); }
        tick + RemoveAll(tick + t, TripleTick);
        { TickKept(t); }
        tick + (tick + RemoveAll(t, TripleTick));
        { assert Ticks(n) == tick + tick; }
        Ticks(n) + RemoveAll(t, TripleTick);
      }
    } else {
      calc {
        RemoveAll(Ticks(n) + t, TripleTick);
        { assert Ticks(n) + t == tick + t; }
        RemoveAll(tick + t, TripleTick);
        { TickKept(t); }
        tick + RemoveAll(t, TripleTick);
        { assert Ticks(n) == tick; }
        Ticks(n) + RemoveAll(t, TripleTick);
      }
    }
  }

  /** A run shorter than three backticks is kept whole. */
  lemma ShortRunCollapses(n: nat, t: string)
    requires n < 3
    requires t == [] || t[0] != '`'
    ensures RemoveAll(Ticks(n) + t, TripleTick) == Ticks(n % 3) + RemoveAll(t, TripleTick)
  {
    calc {
      RemoveAll(Ticks(n) + t, TripleTick);
      { if n > 0 { ShortRunKept(n, t); } else { assert Ticks(n) + t == t; } }
      Ticks(n) + RemoveAll(t, TripleTick);
      { assert n % 3 == n; }
      Ticks(n % 3) + RemoveAll(t, TripleTick);
    }
  }

  /** The first three backticks of a longer run are dropped together. */
  lemma LongRunStep(n: nat, t: string)
    requires n >= 3
    ensures RemoveAll(Ticks(n) + t, TripleTick) == RemoveAll(Ticks(n - 3) + t, TripleTick)
  {
    assert Ticks(n) + t == TripleTick + (Ticks(n - 3) + t);
    FenceDropped(Ticks(n - 3) + t);
  }

  /** A run of n backticks followed by anything but a backtick keeps only
      n mod 3 of them; the rest of the text is processed on its own. */
  lemma {:induction false} RunCollapses(n: nat, t: string)
    requires t == [] || t[0] != '`'
    ensures RemoveAll(Ticks(n) + t, TripleTick) == Ticks(n % 3) + RemoveAll(t, TripleTick)
    decreases n
  {
    if n >= 3 {
      calc {
        RemoveAll(Ticks(n) + t, TripleTick);
        { LongRunStep(n, t); }
        RemoveAll(Ticks(n - 3) + t, TripleTick);
        { RunCollapses(n - 3, t); }
        Ticks((n - 3) % 3) + RemoveAll(t, TripleTick);
        { assert (n - 3) % 3 == n % 3; }
        Ticks(n % 3) + RemoveAll(t, TripleTick);
      }
    } else {
      ShortRunCollapses(n, t);
    }
  }

  /** A character other than a backtick always survives removal of "```". */
  lemma NonTickKept(c: char, t: string)
    requires c != '`'
    ensures RemoveAll([c] + t, TripleTick) == [c] + RemoveAll(t, TripleTick)
  {
    var s := [c] + t;
    if |s| >= 3 {
      FenceAtFront(s);
    }
    assert s[1..] == t;
  }

  /** Adding three does not change the remainder by three. */
  lemma ModThreeShift(x: nat)
    ensures (3 + x) % 3 == x % 3
  {
  }

  /** The leading run of the output is the leading run of the input, mod 3. */
  lemma {:induction false} LeadingTicksAfterRemoval(s: string)
    ensures LeadingTicks(RemoveAll(s, TripleTick)) == LeadingTicks(s) % 3
    decreases |s|
  {
    var r := RemoveAll(s, TripleTick);
    if |s| < 3 {
      assert r == s;
      assert LeadingTicks(s) % 3 == LeadingTicks(s);
    } else {
      FenceAtFront(s);
      if s[..3] == TripleTick {
        assert r == RemoveAll(s[3..], TripleTick);
        assert s[1..][1..][1..] == s[3..];
        assert LeadingTicks(s) == 3 + LeadingTicks(s[3..]);
        LeadingTicksAfterRemoval(s[3..]);
        ModThreeShift(LeadingTicks(s[3..]));
      } else {
        var t := RemoveAll(s[1..], TripleTick);
        assert r == [s[0]] + t;
        LeadingTicksAfterRemoval(s[1..]);
        if s[0] == '`' {
          assert r[1..] == t;
          assert LeadingTicks(s) == 1 + LeadingTicks(s[1..]);
          assert LeadingTicks(r) == 1 + LeadingTicks(t);
          // fewer than three leading backticks, or the front would match
          assert LeadingTicks(s) < 3;
          assert LeadingTicks(s[1..]) % 3 == LeadingTicks(s[1..]);
          assert LeadingTicks(s) % 3 == LeadingTicks(s);
        }
      }
    }
  }

  /** Removing every "```" leaves no "```" behind, for any input. */
  lemma {:induction false} NoFenceAfterRemoval(s: string)
    ensures !Occurs(TripleTick, RemoveAll(s, TripleTick))
    decreases |s|
  {
    var r := RemoveAll(s, TripleTick);
    if |s| < 3 {
      assert forall i :: !MatchesAt(r, TripleTick, i);
    } else {
      FenceAtFront(s);
      if s[..3] == TripleTick {
        assert r == RemoveAll(s[3..], TripleTick);
        NoFenceAfterRemoval(s[3..]);
      } else {
        var t := RemoveAll(s[1..], TripleTick);
        assert r == [s[0]] + t;
        NoFenceAfterRemoval(s[1..]);
        forall i ensures !MatchesAt(r, TripleTick, i) {
          if 1 <= i && i + 3 <= |r| {
            assert r[i..i + 3] == t[i - 1..i + 2];
            assert !MatchesAt(t, TripleTick, i - 1);
          } else if i == 0 && 3 <= |r| {
            FenceAtFront(r);
            if s[0] == '`' {
              // the backtick in front is followed by at most one more
              assert LeadingTicks(s) == 1 + LeadingTicks(s[1..]);
              assert LeadingTicks(s) < 3;
              LeadingTicksAfterRemoval(s[1..]);
              assert LeadingTicks(t) <= 1;
              assert r[1] == t[0] && r[2] == t[1];
            }
          }
        }
      }
    }
  }

  // ---------------------------------------------------------------------
  // Trimming
  // ---------------------------------------------------------------------

  /** Drops leading whitespace. */
  function TrimStart(s: string): (r: string)
    ensures |r| <= |s| && r == s[|s| - |r|..]
    ensures forall i :: 0 <= i < |s| - |r| ==> IsWhitespace(s[i])
    ensures r == [] || !IsWhitespace(r[0])
    decreases |s|
  {
    if s != [] && IsWhitespace(s[0]) then TrimStart(s[1..]) else s
  }

  /** Drops trailing whitespace. */
  function TrimEnd(s: string): (r: string)
    ensures |r| <= |s| && r == s[..|r|]
    ensures forall i :: |r| <= i < |s| ==> IsWhitespace(s[i])
    ensures r == [] || !IsWhitespace(r[|r| - 1])
    decreases |s|
  {
    if s != [] && IsWhitespace(s[|s| - 1]) then TrimEnd(s[..|s| - 1]) else s
  }

  /** `r` is `s` with the first `k` and the last `|s| - k - |r|` characters
      removed, and every removed character is whitespace. */
  predicate IsTrimOf(r: string, s: string, k: int) {
    && MatchesAt(s, r, k)
    && (forall i :: 0 <= i < k ==> IsWhitespace(s[i]))
    && (forall i :: k + |r| <= i < |s| ==> IsWhitespace(s[i]))
  }

  /** `s.trim()`: exactly whitespace is cut from the two ends, and what is
      left has whitespace at neither end. It is empty only for an
      all-whitespace string, and an already trimmed string is returned as
      it is. */
  function Trim(s: string): (r: string)
    ensures exists k :: IsTrimOf(r, s, k)
    ensures IsTrimmed(r)
    ensures r == [] <==> forall i :: 0 <= i < |s| ==> IsWhitespace(s[i])
    ensures IsTrimmed(s) ==> r == s
  {
    var u := TrimStart(s);
    var r := TrimEnd(u);
    CutBothEnds(s, u, r);
    assert r != [] ==> r[0] == u[0];
    assert IsTrimmed(s) ==> r == s by {
      if IsTrimmed(s) {
        TrimmedIsFixed(s);
      }
    }
    r
  }

  /** Text with whitespace at neither end is left alone by both halves of
      trimming. */
  lemma TrimmedIsFixed(s: string)
    requires IsTrimmed(s)
    ensures TrimStart(s) == s && TrimEnd(s) == s
  {
  }

  /** Whitespace cut from the front of `s`, giving `u`, and then from the
      back of `u`, giving `r`, is whitespace cut from the two ends of `s`. */
  lemma CutBothEnds(s: string, u: string, r: string)
    requires |u| <= |s| && u == s[|s| - |u|..]
    requires forall i :: 0 <= i < |s| - |u| ==> IsWhitespace(s[i])
    requires |r| <= |u| && r == u[..|r|]
    requires forall i :: |r| <= i < |u| ==> IsWhitespace(u[i])
    ensures IsTrimOf(r, s, |s| - |u|)
  {
    var k := |s| - |u|;
    assert s[k..k + |r|] == r;
    forall i | k + |r| <= i < |s|
      ensures IsWhitespace(s[i])
    {
      assert s[i] == u[i - k];
    }
  }

  /** A string made only of whitespace holds no other character. */
  lemma WhitespaceOnly(w: string, c: char)
    requires forall i :: 0 <= i < |w| ==> IsWhitespace(w[i])
    requires !IsWhitespace(c)
    ensures multiset(w)[c] == 0
  {
    assert c !in w;
  }

  /** Cutting whitespace from the ends keeps every other character. */
  lemma CutKeepsContent(r: string, s: string, k: int, c: char)
    requires IsTrimOf(r, s, k)
    requires !IsWhitespace(c)
    ensures multiset(r)[c] == multiset(s)[c]
  {
    var front, back := s[..k], s[k + |r|..];
    assert s == front + r + back;
    assert forall i :: 0 <= i < |front| ==> front[i] == s[i];
    assert forall i :: 0 <= i < |back| ==> back[i] == s[k + |r| + i];
    WhitespaceOnly(front, c);
    WhitespaceOnly(back, c);
    assert multiset(s) == multiset(front) + multiset(r) + multiset(back);
  }

  /** Trimming keeps every occurrence of every non-whitespace character. */
  lemma TrimKeepsContent(s: string, c: char)
    requires !IsWhitespace(c)
    ensures multiset(Trim(s))[c] == multiset(s)[c]
  {
    var k :| IsTrimOf(Trim(s), s, k);
    CutKeepsContent(Trim(s), s, k, c);
  }

  /** What does not occur in `s` does not occur in any block of `s`. */
  lemma AbsentFromBlock(p: string, q: string, s: string)
    requires Occurs(q, s) && !Occurs(p, s)
    ensures !Occurs(p, q)
  {
    var j :| MatchesAt(s, q, j);
    assert forall k :: 0 <= k < |q| ==> q[k] == s[j + k];
    forall i ensures !MatchesAt(q, p, i) {
      if 0 <= i && i + |p| <= |q| {
        assert q[i..i + |p|] == s[j + i..j + i + |p|];
        assert !MatchesAt(s, p, j + i);
      }
    }
  }

  // ---------------------------------------------------------------------
  // The whole pre-processing chain
  // ---------------------------------------------------------------------

  /** The reply pre-processing: every "```json" removed, then every "```",
      then the ends trimmed. No code fence survives, and neither end of the
      result is whitespace. */
  function StripCodeFences(text: string): (r: string)
    ensures !Occurs(TripleTick, r)
    ensures IsTrimmed(r)
  {
    var noFence := RemoveAll(RemoveAll(text, JsonFence), TripleTick);
    NoFenceAfterRemoval(RemoveAll(text, JsonFence));
    var r := Trim(noFence);
    var k :| IsTrimOf(r, noFence, k);
    AbsentFromBlock(TripleTick, r, noFence);
    r
  }

  /** Text with no "```" in it and no whitespace at either end passes
      through unchanged. */
  lemma CleanTextUnchanged(text: string)
    requires !Occurs(TripleTick, text) && IsTrimmed(text)
    ensures StripCodeFences(text) == text
  {
    forall i ensures !MatchesAt(text, JsonFence, i) {
      if 0 <= i && i + |JsonFence| <= |text| {
        assert !MatchesAt(text, TripleTick, i);
        assert text[i..i + |JsonFence|][..3] == text[i..i + 3];
      }
    }
    RemoveAllAbsent(text, JsonFence);
    RemoveAllAbsent(text, TripleTick);
  }

  /** In particular, text without any backtick and without surrounding
      whitespace is unchanged. */
  lemma BacktickFreeUnchanged(text: string)
    requires '`' !in text && IsTrimmed(text)
    ensures StripCodeFences(text) == text
  {
    forall i ensures !MatchesAt(text, TripleTick, i) {
      if 0 <= i && i + |TripleTick| <= |text| {
        assert text[i..i + 3][0] == text[i];
      }
    }
    CleanTextUnchanged(text);
  }

  /** Stripping is idempotent. */
  lemma StripIdempotent(text: string)
    ensures StripCodeFences(StripCodeFences(text)) == StripCodeFences(text)
  {
    CleanTextUnchanged(StripCodeFences(text));
  }

  /** Stripping deletes only marker characters and surrounding whitespace:
      every other character keeps its number of occurrences. */
  lemma StripKeepsContent(text: string, c: char)
    requires c !in JsonFence && !IsWhitespace(c)
    ensures multiset(StripCodeFences(text))[c] == multiset(text)[c]
  {
    RemoveAllOnlyDeletes(text, JsonFence);
    RemoveAllOnlyDeletes(RemoveAll(text, JsonFence), TripleTick);
    assert c !in TripleTick;
    TrimKeepsContent(RemoveAll(RemoveAll(text, JsonFence), TripleTick), c);
  }

  /** Removing "```" from a fence-free body followed by a closing fence
      leaves the body. */
  lemma {:induction false} ClosingFenceRemoved(body: string)
    requires '`' !in body
    ensures RemoveAll(body + TripleTick, TripleTick) == body
    decreases |body|
  {
    if body == [] {
      assert body + TripleTick == TripleTick;
      assert TripleTick[..3] == TripleTick;
      assert TripleTick[3..] == [];
    } else {
      assert body + TripleTick == [body[0]] + (body[1..] + TripleTick);
      NonTickKept(body[0], body[1..] + TripleTick);
      ClosingFenceRemoved(body[1..]);
      assert body == [body[0]] + body[1..];
    }
  }

  /** A reply wrapped as "```json" body "```", with no backtick inside the
      body, comes out as the trimmed body. */
  lemma UnwrapJsonBlock(body: string)
    requires '`' !in body
    ensures StripCodeFences(JsonFence + body + TripleTick) == Trim(body)
  {
    var s := JsonFence + body + TripleTick;
    assert s[..|JsonFence|] == JsonFence;
    assert s[|JsonFence|..] == body + TripleTick;
    var t := body + TripleTick;
    forall i ensures !MatchesAt(t, JsonFence, i) {
      if 0 <= i && i + |JsonFence| <= |t| {
        assert t[i..i + |JsonFence|][0] == t[i] == body[i];
      }
    }
    RemoveAllAbsent(t, JsonFence);
    ClosingFenceRemoved(body);
  }

  /** A whitespace character in front is dropped by `TrimStart`. */
  lemma TrimStartSkips(a: char, t: string)
    requires IsWhitespace(a)
    ensures TrimStart([a] + t) == TrimStart(t)
  {
    assert ([a] + t)[1..] == t;
  }

  /** A whitespace character at the back is dropped by `TrimEnd`. */
  lemma TrimEndSkips(t: string, b: char)
    requires IsWhitespace(b)
    ensures TrimEnd(t + [b]) == TrimEnd(t)
  {
    assert (t + [b])[..|t|] == t;
  }

  /** One whitespace character on each side of a trimmed text is cut. */
  lemma TrimPadded(a: char, core: string, b: char)
    requires IsWhitespace(a) && IsWhitespace(b)
    requires core != [] && IsTrimmed(core)
    ensures Trim([a] + core + [b]) == core
  {
    var line := core + [b];
    calc {
      Trim([a] + core + [b]);
      { assert [a] + core + [b] == [a] + line; }
      Trim([a] + line);
      TrimEnd(TrimStart([a] + line));
      { TrimStartSkips(a, line); }
      TrimEnd(TrimStart(line));
      { assert line[0] == core[0]; }
      TrimEnd(line);
      { TrimEndSkips(core, b); }
      TrimEnd(core);
    }
  }

  /** Trimming the body of the example reply below. */
  lemma TrimExample()
    ensures Trim("\n" + "{\"a\":1}" + "\n") == "{\"a\":1}"
  {
    var core := "{\"a\":1}";
    assert core[0] == '{' && core[|core| - 1] == '}';
    TrimPadded('\n', core, '\n');
  }

  /** The reply "```json", newline, `{"a":1}`, newline, "```" becomes
      `{"a":1}`. */
  lemma UnwrapExample()
    ensures StripCodeFences("```json" + ("\n" + "{\"a\":1}" + "\n") + "```") == "{\"a\":1}"
  {
    var body := "\n" + "{\"a\":1}" + "\n";
    assert '`' !in body by {
      assert forall i :: 0 <= i < |body| ==> body[i] != '`';
    }
    UnwrapJsonBlock(body);
    TrimExample();
  }
}
