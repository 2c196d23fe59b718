/**
 * The live editor's allow-list sanitiser: before the edited code is run,
 * every match of `/use[A-Z]\w+/g` that is not one of five React hook names
 * is replaced by a comment.
 */
module LiveEditor {
  import opened Text

  /** The hook names the editor lets through. */
  const AllowedHooks: seq<string> := ["useState", "useEffect", "useRef", "useCallback", "useMemo"]

  /** What a match outside the allow-list becomes. */
  const Blocked: string := "/* blocked */"

  /** The length of the longest prefix of `s` made of word characters (`\w*`, greedy). */
  function WordRun(s: string): (n: nat)
    ensures n <= |s|
    ensures forall i | 0 <= i < n :: IsWordChar(s[i])
    ensures n < |s| ==> !IsWordChar(s[n])
  {
    if s != [] && IsWordChar(s[0]) then 1 + WordRun(s[1..]) else 0
  }

  /** A match of `use[A-Z]\w+` starts at the beginning of `s`. */
  predicate MatchesAt(s: string) {
    |s| >= 5 && s[0] == 'u' && s[1] == 's' && s[2] == 'e' && IsUpper(s[3]) && IsWordChar(s[4])
  }

  /** The length of the greedy match at the beginning of `s`: `\w+` takes every word character it can. */
  function MatchLength(s: string): (n: nat)
    requires MatchesAt(s)
    ensures 5 <= n <= |s|
    ensures forall i | 4 <= i < n :: IsWordChar(s[i])
    ensures n < |s| ==> !IsWordChar(s[n])
  {
    4 + WordRun(s[4..])
  }

  /**
   * `s.replace(/use[A-Z]\w+/g, ...)` keeping allowed matches and blocking
   * the others: the scan tries a match at each position from left to right; a match is
   * replaced and the scan resumes after it, otherwise one character is
   * copied.
   */
  function Sanitise(s: string): string
    decreases |s|
  {
    if s == [] then []
    else if MatchesAt(s) then
      var n := MatchLength(s);
      (if s[..n] in AllowedHooks then s[..n] else Blocked) + Sanitise(s[n..])
    else
      [s[0]] + Sanitise(s[1..])
  }

  /** Every match the same left-to-right scan finds in `s` is an allowed hook name. */
  predicate OnlyAllowedMatches(s: string)
    decreases |s|
  {
    if s == [] then true
    else if MatchesAt(s) then
      var n := MatchLength(s);
      s[..n] in AllowedHooks && OnlyAllowedMatches(s[n..])
    else
      OnlyAllowedMatches(s[1..])
  }

  /** A text starting with a character that cannot begin a match keeps that character. */
  lemma NonWordIsCopied(t: string)
    requires t != [] && !IsWordChar(t[0])
    ensures Sanitise(t) == [t[0]] + Sanitise(t[1..])
    ensures Sanitise(t)[0] == t[0]
  {
  }

  /**
   * A prefix of the output made only of word characters was copied from the
   * input: replacements never put word characters next to each other in a
   * new way.
   */
  lemma {:induction false} WordPrefixIsCopied(t: string, j: nat)
    requires j <= |Sanitise(t)|
    requires forall i | 0 <= i < j :: IsWordChar(Sanitise(t)[i])
    ensures j <= |t| && Sanitise(t)[..j] == t[..j]
    decreases |t|
  {
    var out := Sanitise(t);
    if t != [] {
      if MatchesAt(t) {
        var n := MatchLength(t);
        var tail := Sanitise(t[n..]);
        if t[..n] in AllowedHooks {
          assert out == t[..n] + tail;
          if n < |t| {
            NonWordIsCopied(t[n..]);
            assert out[n] == t[n];
          }
        } else {
          assert out == Blocked + tail;
          assert out[0] == '/';
        }
      } else if j > 0 {
        var rest := Sanitise(t[1..]);
        assert out == [t[0]] + rest;
        forall i | 0 <= i < j - 1 ensures IsWordChar(rest[i]) {
          assert rest[i] == out[i + 1];
        }
        WordPrefixIsCopied(t[1..], j - 1);
        assert out[..j] == [t[0]] + rest[..j - 1];
      }
    }
  }

  /** A text without the letter `u` holds no match, so the scan passes over it. */
  lemma {:induction false} OnlyAllowedSkip(x: string, y: string)
    requires forall i | 0 <= i < |x| :: x[i] != 'u'
    ensures OnlyAllowedMatches(x + y) == OnlyAllowedMatches(y)
  {
    if x != [] {
      assert (x + y)[0] == x[0];
      assert !MatchesAt(x + y);
      assert (x + y)[1..] == x[1..] + y;
      assert OnlyAllowedMatches(x + y) == OnlyAllowedMatches(x[1..] + y);
      forall i | 0 <= i < |x[1..]| ensures x[1..][i] != 'u' {
        assert x[1..][i] == x[i + 1];
      }
      OnlyAllowedSkip(x[1..], y);
    } else {
      assert x + y == y;
    }
  }

  /**
   * An allowed match followed by text that does not start with a word
   * character is found again, whole, by a second scan.
   */
  lemma ScanAfterKeptMatch(s: string, tail: string)
    requires MatchesAt(s) && s[..MatchLength(s)] in AllowedHooks
    requires tail == [] || !IsWordChar(tail[0])
    ensures OnlyAllowedMatches(s[..MatchLength(s)] + tail) == OnlyAllowedMatches(tail)
  {
    var n := MatchLength(s);
    var out := s[..n] + tail;
    assert forall i | 0 <= i < n :: out[i] == s[i];
    assert MatchesAt(out);
    var w := out[4..];
    forall i | 0 <= i < n - 4 ensures IsWordChar(w[i]) {
      assert w[i] == s[4 + i];
    }
    if n - 4 < |w| {
      assert w[n - 4] == tail[0];
    }
    WordRunStopsAt(w, n - 4);
    assert out[..n] == s[..n];
    assert out[n..] == tail;
  }

  /** Where the scan copies a character, a second scan finds no match either. */
  lemma ScanAfterCopiedChar(s: string)
    requires s != [] && !MatchesAt(s)
    ensures !MatchesAt([s[0]] + Sanitise(s[1..]))
  {
    var out := [s[0]] + Sanitise(s[1..]);
    assert out == Sanitise(s);
    if MatchesAt(out) {
      WordPrefixIsCopied(s, 5);
      assert false;
    }
  }

  /**
   * After sanitising, every match left in the code is one of the five
   * allowed hook names: running the same replacement over the result finds
   * nothing to block.
   */
  lemma {:induction false} SanitiseSafe(s: string)
    ensures OnlyAllowedMatches(Sanitise(s))
    decreases |s|
  {
    if s != [] {
      if MatchesAt(s) {
        var n := MatchLength(s);
        var tail := Sanitise(s[n..]);
        SanitiseSafe(s[n..]);
        if s[..n] in AllowedHooks {
          if n < |s| {
            NonWordIsCopied(s[n..]);
          }
          ScanAfterKeptMatch(s, tail);
        } else {
          OnlyAllowedSkip(Blocked, tail);
        }
      } else {
        var rest := Sanitise(s[1..]);
        SanitiseSafe(s[1..]);
        ScanAfterCopiedChar(s);
        assert ([s[0]] + rest)[1..] == rest;
      }
    }
  }

  /** The word run ends where the first non-word character stands. */
  lemma {:induction false} WordRunStopsAt(s: string, k: nat)
    requires k <= |s|
    requires forall i | 0 <= i < k :: IsWordChar(s[i])
    requires k < |s| ==> !IsWordChar(s[k])
    ensures WordRun(s) == k
  {
    if k > 0 {
      WordRunStopsAt(s[1..], k - 1);
    }
  }

  /** The code is left exactly as it is if and only if every match in it is allowed. */
  lemma {:induction false} SanitiseFixpoint(s: string)
    ensures Sanitise(s) == s <==> OnlyAllowedMatches(s)
    decreases |s|
  {
    if s != [] {
      if MatchesAt(s) {
        var n := MatchLength(s);
        SanitiseFixpoint(s[n..]);
        if s[..n] in AllowedHooks {
          assert s == s[..n] + s[n..];
          assert Sanitise(s) == s[..n] + Sanitise(s[n..]);
          if Sanitise(s) == s {
            assert Sanitise(s)[n..] == Sanitise(s[n..]);
          }
        } else {
          assert Sanitise(s)[0] == '/' != s[0];
        }
      } else {
        SanitiseFixpoint(s[1..]);
        assert s == [s[0]] + s[1..];
        if Sanitise(s) == s {
          assert Sanitise(s)[1..] == Sanitise(s[1..]);
        }
      }
    }
  }

  /** Sanitising twice changes nothing more than sanitising once. */
  lemma SanitiseIdempotent(s: string)
    ensures Sanitise(Sanitise(s)) == Sanitise(s)
  {
    SanitiseSafe(s);
    SanitiseFixpoint(Sanitise(s));
  }

  /** Code in which the pattern matches nowhere is returned unchanged. */
  lemma {:induction false} NoMatchUnchanged(s: string)
    requires forall i | 0 <= i <= |s| :: !MatchesAt(s[i..])
    ensures Sanitise(s) == s
    decreases |s|
  {
    if s != [] {
      assert !MatchesAt(s[0..]);
      assert s[0..] == s;
      forall i | 0 <= i <= |s[1..]| ensures !MatchesAt(s[1..][i..]) {
        assert s[1..][i..] == s[i + 1..];
      }
      NoMatchUnchanged(s[1..]);
    }
  }

  /** Text after a non-word character does not change the match at the start. */
  lemma SameMatchWithSuffix(x: string, y: string)
    requires x != [] && !IsWordChar(x[|x| - 1])
    ensures MatchesAt(x + y) <==> MatchesAt(x)
    ensures MatchesAt(x) ==> MatchLength(x) < |x| && MatchLength(x + y) == MatchLength(x)
  {
    var xy := x + y;
    forall i | 0 <= i < |x| ensures xy[i] == x[i] { }
    if MatchesAt(x) {
      var n := MatchLength(x);
      assert 4 <= |x| - 1 ==> IsWordChar(x[|x| - 1]) || n < |x|;
      assert MatchesAt(xy);
      WordRunStopsAt(xy[4..], n - 4);
    }
  }

  /**
   * A match is made of word characters only, so it never spans a non-word
   * character: code split after one (a line break, a semicolon) is
   * sanitised piece by piece.
   */
  lemma {:induction false} SanitiseSplitsAtNonWord(x: string, y: string)
    requires x == [] || !IsWordChar(x[|x| - 1])
    ensures Sanitise(x + y) == Sanitise(x) + Sanitise(y)
    decreases |x|
  {
    if x != [] {
      var xy := x + y;
      SameMatchWithSuffix(x, y);
      if MatchesAt(x) {
        var n := MatchLength(x);
        assert xy[..n] == x[..n];
        assert xy[n..] == x[n..] + y;
        SanitiseSplitsAtNonWord(x[n..], y);
      } else {
        assert xy[0] == x[0];
        assert xy[1..] == x[1..] + y;
        SanitiseSplitsAtNonWord(x[1..], y);
      }
    } else {
      assert x + y == y;
    }
  }
}

/** Worked cases of the sanitiser. */
module LiveEditorCases {
  import opened Text
  import opened LiveEditor

  /** An allowed hook followed by a call is kept. */
  lemma AllowedHookIsKept()
    ensures Sanitise("useState(0)") == "useState(0)"
  {
    var s := "useState(0)";
    assert MatchesAt(s);
    WordRunStopsAt(s[4..], 4);
    assert s[..8] == "useState";
    NoMatchUnchanged("(0)");
  }

  /** The match is greedy: "useStateful" is one match, not "useState" followed by "ful". */
  lemma GreedyMatchIsBlocked()
    ensures Sanitise("useStateful") == Blocked
  {
    var s := "useStateful";
    assert MatchesAt(s);
    WordRunStopsAt(s[4..], 7);
    assert s[..11] == s;
    assert s !in AllowedHooks;
  }

  /** There is no word boundary: a match may start inside a word. */
  lemma MatchInsideWordIsBlocked()
    ensures Sanitise("reuseFoo") == "re" + Blocked
  {
    var s := "reuseFoo";
    assert !MatchesAt(s) && !MatchesAt(s[1..]);
    assert s[1..][1..] == "useFoo";
    assert MatchesAt("useFoo");
    WordRunStopsAt("useFoo"[4..], 2);
    assert "useFoo"[..6] == "useFoo";
    assert "useFoo" !in AllowedHooks;
  }

  /** `\w+` needs a word character after the capital, so "useA)" holds no match. */
  lemma ShortNameIsNotMatched()
    ensures Sanitise("useA)") == "useA)"
  {
    var s := "useA)";
    forall i | 0 <= i <= |s| ensures !MatchesAt(s[i..]) {
    }
    NoMatchUnchanged(s);
  }
}
