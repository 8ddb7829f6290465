/** Character-level helpers: the `lower()`, `strip()` and substring (`in`)
    operations of Python strings that the assistant applies to what the user
    says and to the host platform name. */
module Text {

  /** Python's `str.isspace()` for one character: the ASCII whitespace
      characters (including the four separator controls 0x1C-0x1F) and the
      Unicode space separators and line/paragraph separators. */
  predicate IsSpace(c: char)
  {
    c == ' ' || c == '\t' || c == '\n' || c == '\r' || c == '\U{0B}' || c == '\U{0C}'
    || ('\U{1C}' <= c <= '\U{1F}')
    || c == '\U{85}' || c == '\U{A0}' || c == '\U{1680}'
    || ('\U{2000}' <= c <= '\U{200A}')
    || c == '\U{2028}' || c == '\U{2029}' || c == '\U{202F}' || c == '\U{205F}' || c == '\U{3000}'
  }

  /** Every character of `s` is whitespace (the empty string included). */
  predicate AllSpace(s: string)
  {
    forall i :: 0 <= i < |s| ==> IsSpace(s[i])
  }

  /** `s` does not begin or end with whitespace. */
  predicate Trimmed(s: string)
  {
    s == [] || (!IsSpace(s[0]) && !IsSpace(s[|s| - 1]))
  }

  /** Python's `lower()` restricted to ASCII: 'A'..'Z' become 'a'..'z',
      every other character is kept. */
  function LowerChar(c: char): (d: char)
    ensures 'A' <= c <= 'Z' ==> 'a' <= d <= 'z' && d as int - c as int == 32
    ensures !('A' <= c <= 'Z') ==> d == c
  {
    if 'A' <= c <= 'Z' then (c as int + 32) as char else c
  }

  function Lower(s: string): (r: string)
    ensures |r| == |s|
  {
    if s == [] then [] else [LowerChar(s[0])] + Lower(s[1..])
  }

  /** `lower()` works character by character. */
  lemma {:induction false} LowerPointwise(s: string)
    ensures forall i :: 0 <= i < |s| ==> Lower(s)[i] == LowerChar(s[i])
    decreases |s|
  {
    if s != [] {
      LowerPointwise(s[1..]);
    }
  }

  /** `lstrip()`; what it removes is stated by `StripStartSpec`. */
  function StripStart(s: string): string
    decreases |s|
  {
    if s != [] && IsSpace(s[0]) then StripStart(s[1..]) else s
  }

  /** `rstrip()`; what it removes is stated by `StripEndSpec`. */
  function StripEnd(s: string): string
    decreases |s|
  {
    if s != [] && IsSpace(s[|s| - 1]) then StripEnd(s[..|s| - 1]) else s
  }

  /** `strip()`; what it keeps is stated by `StripSpec`. */
  function Strip(s: string): string
  {
    StripEnd(StripStart(s))
  }

  /** The normal form the loop compares against its command words:
      `user_input.lower().strip()`. */
  function Normalise(utterance: string): string
  {
    Strip(Lower(utterance))
  }

  /** `pattern` occurs in `s` starting at index `i`. */
  predicate OccursAt(s: string, pattern: string, i: int)
  {
    0 <= i <= |s| - |pattern| && s[i..i + |pattern|] == pattern
  }

  /** Python's `pattern in s` for strings: some slice of `s` equals `pattern`. */
  function Contains(s: string, pattern: string): (b: bool)
    ensures b <==> exists i :: OccursAt(s, pattern, i)
    decreases |s|
  {
    if |s| < |pattern| then
      assert forall i :: !OccursAt(s, pattern, i);
      false
    else if s[..|pattern|] == pattern then
      assert OccursAt(s, pattern, 0);
      true
    else
      var rest := Contains(s[1..], pattern);
      assert rest ==> exists i :: OccursAt(s, pattern, i) by {
        if rest {
          var j :| OccursAt(s[1..], pattern, j);
          assert s[j + 1..j + 1 + |pattern|] == s[1..][j..j + |pattern|];
          assert OccursAt(s, pattern, j + 1);
        }
      }
      assert (exists i :: OccursAt(s, pattern, i)) ==> rest by {
        if exists i :: OccursAt(s, pattern, i) {
          var i :| OccursAt(s, pattern, i);
          assert i != 0;
          assert s[1..][i - 1..i - 1 + |pattern|] == s[i..i + |pattern|];
          assert OccursAt(s[1..], pattern, i - 1);
        }
      }
      rest
  }

  // ---------------------------------------------------------------------------
  // Lemmas: what strip() removes.

  /** `lstrip()` drops the leading whitespace and nothing else. */
  lemma {:induction false} StripStartSpec(s: string)
    ensures var r := StripStart(s);
            |r| <= |s| && r == s[|s| - |r|..] && AllSpace(s[..|s| - |r|])
            && (r != [] ==> !IsSpace(r[0]))
    decreases |s|
  {
    if s != [] && IsSpace(s[0]) {
      StripStartSpec(s[1..]);
      var r := StripStart(s[1..]);
      assert s[..|s| - |r|] == [s[0]] + s[1..][..|s| - 1 - |r|];
    }
  }

  /** `rstrip()` drops the trailing whitespace and nothing else. */
  lemma {:induction false} StripEndSpec(s: string)
    ensures var r := StripEnd(s);
            |r| <= |s| && r == s[..|r|] && AllSpace(s[|r|..])
            && (r != [] ==> !IsSpace(r[|r| - 1]))
    decreases |s|
  {
    if s != [] && IsSpace(s[|s| - 1]) {
      var t := s[..|s| - 1];
      StripEndSpec(t);
      var r := StripEnd(t);
      assert s[|r|..] == t[|r|..] + [s[|s| - 1]];
    }
  }

  /** `strip()` keeps the part of `s` between its leading and its trailing
      whitespace: the result is a slice of `s` with only whitespace outside
      it, it neither begins nor ends with whitespace, and it is empty exactly
      when `s` is all whitespace. */
  lemma StripSpec(s: string)
    ensures var r := Strip(s);
            var k := |s| - |StripStart(s)|;
            0 <= k <= k + |r| <= |s| && r == s[k..k + |r|]
            && AllSpace(s[..k]) && AllSpace(s[k + |r|..])
            && Trimmed(r)
            && (r == [] <==> AllSpace(s))
  {
    var t := StripStart(s);
    var r := StripEnd(t);
    StripStartSpec(s);
    StripEndSpec(t);
    var k := |s| - |t|;
    assert s[k + |r|..] == t[|r|..];
    assert r == [] ==> AllSpace(s) by {
      if r == [] {
        assert s == s[..k] + t;
      }
    }
  }

  // ---------------------------------------------------------------------------
  // Lemmas: what lower() and strip() do to padded input.

  /** Lowering works character by character, so it distributes over `+`. */
  lemma LowerAppend(a: string, b: string)
    ensures Lower(a + b) == Lower(a) + Lower(b)
  {
    LowerPointwise(a);
    LowerPointwise(b);
    LowerPointwise(a + b);
    assert forall i :: 0 <= i < |a + b| ==> Lower(a + b)[i] == (Lower(a) + Lower(b))[i];
  }

  /** Lowering never turns whitespace into something else or the reverse. */
  lemma LowerKeepsSpaces(s: string)
    ensures forall i :: 0 <= i < |s| ==> (IsSpace(Lower(s)[i]) <==> IsSpace(s[i]))
    ensures AllSpace(s) ==> Lower(s) == s
    ensures Trimmed(s) <==> Trimmed(Lower(s))
  {
    LowerPointwise(s);
  }

  /** Leading whitespace is exactly what `lstrip()` removes. */
  lemma {:induction false} StripStartSkipsSpaces(l: string, t: string)
    requires AllSpace(l)
    ensures StripStart(l + t) == StripStart(t)
    decreases |l|
  {
    if l != [] {
      assert IsSpace((l + t)[0]);
      assert (l + t)[1..] == l[1..] + t;
      StripStartSkipsSpaces(l[1..], t);
    } else {
      assert l + t == t;
    }
  }

  /** Trailing whitespace is exactly what `rstrip()` removes. */
  lemma {:induction false} StripEndSkipsSpaces(t: string, r: string)
    requires AllSpace(r)
    ensures StripEnd(t + r) == StripEnd(t)
    decreases |r|
  {
    if r != [] {
      var r' := r[..|r| - 1];
      assert IsSpace((t + r)[|t + r| - 1]);
      assert (t + r)[..|t + r| - 1] == t + r';
      StripEndSkipsSpaces(t, r');
    } else {
      assert t + r == t;
    }
  }

  /** `strip()` of a trimmed word surrounded by whitespace gives the word back. */
  lemma StripPadded(l: string, w: string, r: string)
    requires AllSpace(l) && AllSpace(r) && Trimmed(w)
    ensures Strip(l + w + r) == w
  {
    assert l + w + r == l + (w + r);
    StripStartSkipsSpaces(l, w + r);
    if w == [] {
      assert w + r == r;
      StripStartSpec(r);
      assert StripStart(r) == [];
      assert StripEnd([]) == [];
    } else {
      assert StripStart(w + r) == w + r;
      StripEndSkipsSpaces(w, r);
      assert StripEnd(w) == w;
    }
  }

  /** The loop's normal form ignores letter case and surrounding whitespace:
      a word padded with whitespace on either side normalises to the lower-case
      word. */
  lemma NormaliseIgnoresPadding(l: string, w: string, r: string)
    requires AllSpace(l) && AllSpace(r) && Trimmed(w)
    ensures Normalise(l + w + r) == Lower(w)
  {
    LowerAppend(l + w, r);
    LowerAppend(l, w);
    LowerKeepsSpaces(l);
    LowerKeepsSpaces(r);
    LowerKeepsSpaces(w);
    StripPadded(l, Lower(w), r);
  }
}
