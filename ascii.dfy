/**
 * The string operations the pipeline uses (`str.lower`, `str.strip`,
 * `sub in s`, `s.split(sep, 1)`), restricted to ASCII.
 */
module Ascii {
  import opened Wrappers

  /** Python's `str.isspace` on ASCII: tab through carriage return, the four
      separator characters 0x1C-0x1F, and the space. */
  predicate IsSpace(c: char) {
    c == ' ' || ('\t' <= c && c <= '\r') || ('\U{1C}' <= c && c <= '\U{1F}')
  }

  ghost predicate AllSpace(s: string) {
    forall k :: 0 <= k < |s| ==> IsSpace(s[k])
  }

  /** `str.lower` on one character: only A-Z change. */
  function LowerChar(c: char): (r: char)
    ensures 'A' <= c <= 'Z' ==> r as int == c as int + 32
    ensures !('A' <= c <= 'Z') ==> r == c
    ensures !('A' <= r <= 'Z')
  {
    if 'A' <= c <= 'Z' then (c as int + 32) as char else c
  }

  function Lower(s: string): (r: string)
    ensures |r| == |s|
    ensures forall k :: 0 <= k < |s| ==> r[k] == LowerChar(s[k])
  {
    seq(|s|, k requires 0 <= k < |s| => LowerChar(s[k]))
  }

  lemma LowerConcat(a: string, b: string)
    ensures Lower(a + b) == Lower(a) + Lower(b)
  {
    assert forall k :: 0 <= k < |a + b| ==> Lower(a + b)[k] == (Lower(a) + Lower(b))[k];
  }

  /** `pattern in s` for strings: `pattern` occurs somewhere in `s`. */
  predicate Contains(s: string, pattern: string): (r: bool)
    ensures pattern <= s ==> r
    ensures r ==> |pattern| <= |s|
    decreases |s|
  {
    pattern <= s || (s != [] && Contains(s[1..], pattern))
  }

  /** An occurrence is found wherever it sits in the string. */
  lemma {:induction false} ContainsInfix(before: string, pattern: string, after: string)
    ensures Contains(before + pattern + after, pattern)
  {
    var s := before + pattern + after;
    if before == [] {
      assert s == pattern + after;
      assert pattern <= s;
    } else {
      ContainsInfix(before[1..], pattern, after);
      assert s[1..] == before[1..] + pattern + after;
    }
  }

  /** An occurrence stays one when text is put in front. */
  lemma {:induction false} ContainsAfterPrefix(prefix: string, s: string, pattern: string)
    requires Contains(s, pattern)
    ensures Contains(prefix + s, pattern)
    decreases |prefix|
  {
    if prefix != [] {
      ContainsAfterPrefix(prefix[1..], s, pattern);
      assert (prefix + s)[1..] == prefix[1..] + s;
    } else {
      assert prefix + s == s;
    }
  }

  /** A stripped text occurs in the text it was stripped from. */
  lemma StripContained(s: string)
    ensures Contains(s, Strip(s))
  {
    var r := Strip(s);
    var lo := LeadingSpaces(s);
    assert s == s[..lo] + r + s[lo + |r|..];
    ContainsInfix(s[..lo], r, s[lo + |r|..]);
  }

  /** `pattern` starts at index `i` of `s`. */
  predicate OccursAt(s: string, pattern: string, i: nat) {
    i + |pattern| <= |s| && s[i..i + |pattern|] == pattern
  }

  /** `Contains` is the usual substring test: it holds exactly when the
      pattern occurs at some index. */
  lemma {:induction false} ContainsAt(s: string, pattern: string)
    ensures Contains(s, pattern) <==> exists i: nat :: OccursAt(s, pattern, i)
    decreases |s|
  {
    if pattern <= s {
      assert OccursAt(s, pattern, 0);
    } else if s != [] {
      ContainsAt(s[1..], pattern);
      if exists i: nat :: OccursAt(s[1..], pattern, i) {
        var i: nat :| OccursAt(s[1..], pattern, i);
        assert s[i + 1..i + 1 + |pattern|] == s[1..][i..i + |pattern|];
        assert OccursAt(s, pattern, i + 1);
      }
      if exists i: nat :: OccursAt(s, pattern, i) {
        var i: nat :| OccursAt(s, pattern, i);
        if i > 0 {
          assert s[1..][i - 1..i - 1 + |pattern|] == s[i..i + |pattern|];
          assert OccursAt(s[1..], pattern, i - 1);
        }
      }
    }
  }

  /** The position of the first `c` in `s`, if any (what `s.split(c, 1)` splits at). */
  function FirstIndex(s: string, c: char): (r: Option<nat>)
    ensures r.None? <==> c !in s
    ensures r.Some? ==> r.value < |s| && s[r.value] == c && c !in s[..r.value]
    decreases |s|
  {
    if s == [] then None
    else if s[0] == c then Some(0)
    else match FirstIndex(s[1..], c)
      case None => None
      case Some(i) => assert s[..i + 1] == [s[0]] + s[1..][..i]; Some(i + 1)
  }

  /** `s.split(c, 1)[1]`: the text after the first `c`. */
  function AfterFirst(s: string, c: char): (r: string)
    requires c in s
    ensures var i := FirstIndex(s, c).value; s == s[..i] + [c] + r
  {
    var i := FirstIndex(s, c).value;
    assert s == s[..i] + [c] + s[i + 1..];
    s[i + 1..]
  }

  /** The number of whitespace characters at the start of `s`. */
  function LeadingSpaces(s: string): (n: nat)
    ensures n <= |s|
    ensures AllSpace(s[..n])
    ensures n < |s| ==> !IsSpace(s[n])
    decreases |s|
  {
    if s != [] && IsSpace(s[0]) then
      var n := 1 + LeadingSpaces(s[1..]);
      assert s[..n] == [s[0]] + s[1..][..n - 1];
      n
    else 0
  }

  /** The number of whitespace characters at the end of `s`. */
  function TrailingSpaces(s: string): (n: nat)
    ensures n <= |s|
    ensures AllSpace(s[|s| - n..])
    ensures n < |s| ==> !IsSpace(s[|s| - n - 1])
    decreases |s|
  {
    if s != [] && IsSpace(s[|s| - 1]) then
      var init := s[..|s| - 1];
      var n := 1 + TrailingSpaces(init);
      assert s[|s| - n..] == init[|init| - (n - 1)..] + [s[|s| - 1]];
      n
    else 0
  }

  /** `str.strip()`: `s` with its leading and trailing whitespace removed, and
      nothing else. */
  function Strip(s: string): (r: string)
    ensures r == [] || (!IsSpace(r[0]) && !IsSpace(r[|r| - 1]))
    ensures LeadingSpaces(s) + |r| <= |s|
    ensures r == s[LeadingSpaces(s)..LeadingSpaces(s) + |r|]
    ensures AllSpace(s[..LeadingSpaces(s)]) && AllSpace(s[LeadingSpaces(s) + |r|..])
  {
    var lo := LeadingSpaces(s);
    var rest := s[lo..];
    var hi := |rest| - TrailingSpaces(rest);
    var r := rest[..hi];
    assert r == s[lo..lo + hi];
    assert s[lo + hi..] == rest[hi..];
    assert r == [] || (r[0] == rest[0] && r[|r| - 1] == rest[hi - 1]);
    r
  }

  /** The first `c` is found after any text free of `c`. */
  lemma {:induction false} FirstIndexAfter(before: string, c: char, after: string)
    requires c !in before
    ensures FirstIndex(before + [c] + after, c) == Some(|before|)
  {
    var s := before + [c] + after;
    if before != [] {
      FirstIndexAfter(before[1..], c, after);
      assert s[1..] == before[1..] + [c] + after;
    }
  }

  /** Stripping removes exactly the given padding from a text whose ends are
      not whitespace. */
  lemma StripPadded(lead: string, core: string, trail: string)
    requires AllSpace(lead) && AllSpace(trail)
    requires core != [] && !IsSpace(core[0]) && !IsSpace(core[|core| - 1])
    ensures Strip(lead + core + trail) == core
  {
    var s := lead + core + trail;
    assert s == lead + (core + trail);
    LeadingSpacesOfPadded(lead, core + trail);
    assert s[|lead|..] == core + trail;
    TrailingSpacesOfPadded(core, trail);
  }

  lemma {:induction false} TrailingSpacesOfPadded(core: string, trail: string)
    requires AllSpace(trail)
    requires core != [] && !IsSpace(core[|core| - 1])
    ensures TrailingSpaces(core + trail) == |trail|
    decreases |trail|
  {
    var s := core + trail;
    if trail != [] {
      var init := trail[..|trail| - 1];
      TrailingSpacesOfPadded(core, init);
      assert s[..|s| - 1] == core + init;
    } else {
      assert s == core;
    }
  }

  lemma {:induction false} LeadingSpacesOfPadded(lead: string, core: string)
    requires AllSpace(lead)
    requires core != [] && !IsSpace(core[0])
    ensures LeadingSpaces(lead + core) == |lead|
    decreases |lead|
  {
    if lead != [] {
      LeadingSpacesOfPadded(lead[1..], core);
      assert (lead + core)[1..] == lead[1..] + core;
    } else {
      assert lead + core == core;
    }
  }

  /** Stripping twice is stripping once. */
  lemma StripIdempotent(s: string)
    ensures Strip(Strip(s)) == Strip(s)
  {
    var r := Strip(s);
    if r != [] {
      assert LeadingSpaces(r) == 0;
      assert TrailingSpaces(r) == 0;
    }
  }
}
