/** Python `str` operations the configuration layer relies on: `in`/`find`, `replace`,
    `split`, `join`, `upper` and `lower`, with the facts about them that the rest of the
    model uses. Strings are `seq<char>`; case mapping is ASCII only.
 */
module Text {

  /** Python's `t in s` (equivalently `s.find(t) != -1`). */
  predicate Contains(s: string, t: string)
    decreases |s|
  {
    t <= s || (|s| > 0 && Contains(s[1..], t))
  }

  /** Python's `s.split(sep)` for a non-empty separator: leftmost, non-overlapping
      occurrences of `sep` cut `s` into the pieces between them. */
  function Split(s: string, sep: string): (parts: seq<string>)
    requires |sep| > 0
    ensures |parts| > 0
    ensures parts[0] <= s
    decreases |s|
  {
    if |s| == 0 then [""]
    else if sep <= s then [""] + Split(s[|sep|..], sep)
    else
      var rest := Split(s[1..], sep);
      [[s[0]] + rest[0]] + rest[1..]
  }

  /** Python's `sep.join(parts)`. */
  function Join(parts: seq<string>, sep: string): string
    decreases |parts|
  {
    if |parts| == 0 then ""
    else if |parts| == 1 then parts[0]
    else parts[0] + sep + Join(parts[1..], sep)
  }

  /** Python's `s.replace(pat, rep)` for a non-empty pattern: every leftmost,
      non-overlapping occurrence of `pat` is replaced by `rep`. */
  function ReplaceAll(s: string, pat: string, rep: string): string
    requires |pat| > 0
    decreases |s|
  {
    if |s| == 0 then ""
    else if pat <= s then rep + ReplaceAll(s[|pat|..], pat, rep)
    else [s[0]] + ReplaceAll(s[1..], pat, rep)
  }

  function UpperChar(c: char): char {
    if 'a' <= c <= 'z' then (c as int - 32) as char else c
  }

  function LowerChar(c: char): char {
    if 'A' <= c <= 'Z' then (c as int + 32) as char else c
  }

  /** Python's `s.upper()`, restricted to ASCII letters. */
  function Upper(s: string): string {
    seq(|s|, i requires 0 <= i < |s| => UpperChar(s[i]))
  }

  /** Python's `s.lower()`, restricted to ASCII letters. */
  function Lower(s: string): string {
    seq(|s|, i requires 0 <= i < |s| => LowerChar(s[i]))
  }

  /** Prepending a character to the first piece prepends it to the joined text. */
  lemma {:induction false} JoinConsFirst(c: char, p: string, ps: seq<string>, sep: string)
    ensures Join([[c] + p] + ps, sep) == [c] + Join([p] + ps, sep)
  {
    if |ps| > 0 {
      assert ([[c] + p] + ps)[1..] == ps;
      assert ([p] + ps)[1..] == ps;
    }
  }

  /** A string containing `t` contains the first character of `t`. */
  lemma {:induction false} ContainsHead(s: string, t: string)
    requires |t| > 0 && Contains(s, t)
    ensures t[0] in s
    decreases |s|
  {
    if t <= s {
      assert s[0] == t[0];
    } else {
      ContainsHead(s[1..], t);
    }
  }

  /** `str.replace` is `split` followed by `join`: the pieces between occurrences of the
      pattern are kept verbatim and none of them contains the pattern, so exactly the
      occurrences are rewritten and every other character is kept in place. */
  lemma {:induction false} ReplaceIsSplitJoin(s: string, pat: string, rep: string)
    requires |pat| > 0
    ensures Join(Split(s, pat), pat) == s
    ensures Join(Split(s, pat), rep) == ReplaceAll(s, pat, rep)
    ensures forall i :: 0 <= i < |Split(s, pat)| ==> !Contains(Split(s, pat)[i], pat)
  {
    SplitJoinReplace(s, pat, pat);
    SplitJoinReplace(s, pat, rep);
    ReplaceSelf(s, pat);
    SplitPiecesFree(s, pat);
  }

  /** Replacing a pattern by itself changes nothing. */
  lemma {:induction false} ReplaceSelf(s: string, pat: string)
    requires |pat| > 0
    ensures ReplaceAll(s, pat, pat) == s
    decreases |s|
  {
    if |s| > 0 {
      if pat <= s {
        ReplaceSelf(s[|pat|..], pat);
        assert s == pat + s[|pat|..];
      } else {
        ReplaceSelf(s[1..], pat);
        assert s == [s[0]] + s[1..];
      }
    }
  }

  /** Joining the pieces with `rep` rewrites the occurrences to `rep`. */
  lemma {:induction false} SplitJoinReplace(s: string, pat: string, rep: string)
    requires |pat| > 0
    ensures Join(Split(s, pat), rep) == ReplaceAll(s, pat, rep)
    decreases |s|
  {
    if |s| == 0 {
    } else if pat <= s {
      SplitJoinReplace(s[|pat|..], pat, rep);
      SplitAtPattern(s, pat, rep);
    } else {
      SplitJoinReplace(s[1..], pat, rep);
      SplitAtOther(s, pat, rep);
    }
  }

  /** An occurrence at the front contributes an empty piece, hence a leading `rep`. */
  lemma SplitAtPattern(s: string, pat: string, rep: string)
    requires |pat| > 0 && |s| > 0 && pat <= s
    ensures Join(Split(s, pat), rep) == rep + Join(Split(s[|pat|..], pat), rep)
    ensures ReplaceAll(s, pat, rep) == rep + ReplaceAll(s[|pat|..], pat, rep)
  {
    var ps := Split(s[|pat|..], pat);
    assert Split(s, pat) == [""] + ps;
    JoinEmptyFirst(ps, rep);
  }

  lemma JoinEmptyFirst(ps: seq<string>, sep: string)
    requires |ps| > 0
    ensures Join([""] + ps, sep) == sep + Join(ps, sep)
  {
    assert ([""] + ps)[1..] == ps;
  }

  /** Any other first character is prepended to the first piece. */
  lemma SplitAtOther(s: string, pat: string, rep: string)
    requires |pat| > 0 && |s| > 0 && !(pat <= s)
    ensures Join(Split(s, pat), rep) == [s[0]] + Join(Split(s[1..], pat), rep)
    ensures ReplaceAll(s, pat, rep) == [s[0]] + ReplaceAll(s[1..], pat, rep)
  {
    var rest := Split(s[1..], pat);
    assert Split(s, pat) == [[s[0]] + rest[0]] + rest[1..];
    assert rest == [rest[0]] + rest[1..];
    JoinConsFirst(s[0], rest[0], rest[1..], rep);
  }

  /** No piece contains the pattern. */
  lemma {:induction false} SplitPiecesFree(s: string, pat: string)
    requires |pat| > 0
    ensures forall i :: 0 <= i < |Split(s, pat)| ==> !Contains(Split(s, pat)[i], pat)
    decreases |s|
  {
    var parts := Split(s, pat);
    if |s| == 0 {
    } else if pat <= s {
      var tail := s[|pat|..];
      SplitPiecesFree(tail, pat);
      assert parts == [""] + Split(tail, pat);
      forall i | 0 <= i < |parts|
        ensures !Contains(parts[i], pat)
      {
        if i > 0 {
          assert parts[i] == Split(tail, pat)[i - 1];
        }
      }
    } else {
      var rest := Split(s[1..], pat);
      SplitPiecesFree(s[1..], pat);
      assert parts == [[s[0]] + rest[0]] + rest[1..];
      forall i | 0 <= i < |parts|
        ensures !Contains(parts[i], pat)
      {
        if i == 0 {
          var first := [s[0]] + rest[0];
          assert first <= s;
          assert !(pat <= first);
          assert first[1..] == rest[0];
        } else {
          assert parts[i] == rest[i];
        }
      }
    }
  }

  /** Joining pieces that do not contain a one-character separator and splitting again
      gives the pieces back: `split` inverts `join`. */
  lemma {:induction false} SplitJoinInverse(parts: seq<string>, c: char)
    requires |parts| > 0
    requires forall i :: 0 <= i < |parts| ==> c !in parts[i]
    ensures Split(Join(parts, [c]), [c]) == parts
    decreases |parts|, |parts[0]|
  {
    var p := parts[0];
    if |p| == 0 {
      if |parts| == 1 {
      } else {
        var tail := Join(parts[1..], [c]);
        assert Join(parts, [c]) == [c] + tail;
        SplitJoinInverse(parts[1..], c);
        assert [c] <= [c] + tail;
        assert ([c] + tail)[1..] == tail;
      }
    } else {
      var shorter := [p[1..]] + parts[1..];
      forall i | 0 <= i < |shorter|
        ensures c !in shorter[i]
      {
        if i == 0 {
          assert forall x :: x in p[1..] ==> x in p;
        } else {
          assert shorter[i] == parts[i];
        }
      }
      SplitJoinInverse(shorter, c);
      assert p == [p[0]] + p[1..];
      assert parts == [[p[0]] + p[1..]] + parts[1..];
      JoinConsFirst(p[0], p[1..], parts[1..], [c]);
      var s := Join(parts, [c]);
      assert s == [p[0]] + Join(shorter, [c]);
      assert s[1..] == Join(shorter, [c]);
      assert !([c] <= s);
    }
  }

  /** Every character of a replacement result comes from the input or the replacement. */
  lemma {:induction false} ReplaceAllChars(s: string, pat: string, rep: string, x: char)
    requires |pat| > 0
    requires x in ReplaceAll(s, pat, rep)
    ensures x in s || x in rep
    decreases |s|
  {
    if |s| == 0 {
    } else if pat <= s {
      var tail := ReplaceAll(s[|pat|..], pat, rep);
      if x !in rep {
        assert x in tail;
        ReplaceAllChars(s[|pat|..], pat, rep, x);
        assert forall y :: y in s[|pat|..] ==> y in s;
      }
    } else {
      var tail := ReplaceAll(s[1..], pat, rep);
      if x != s[0] {
        assert x in tail;
        ReplaceAllChars(s[1..], pat, rep, x);
        assert forall y :: y in s[1..] ==> y in s;
      }
    }
  }

  /** Every character of a split piece comes from the input. */
  lemma {:induction false} SplitChars(s: string, sep: string, i: nat, x: char)
    requires |sep| > 0
    requires i < |Split(s, sep)| && x in Split(s, sep)[i]
    ensures x in s
    decreases |s|
  {
    var parts := Split(s, sep);
    if |s| == 0 {
    } else if sep <= s {
      assert i > 0 && parts[i] == Split(s[|sep|..], sep)[i - 1];
      SplitChars(s[|sep|..], sep, i - 1, x);
      assert forall y :: y in s[|sep|..] ==> y in s;
    } else {
      var rest := Split(s[1..], sep);
      assert forall y :: y in s[1..] ==> y in s;
      if i == 0 {
        if x != s[0] {
          assert x in rest[0];
          SplitChars(s[1..], sep, 0, x);
        }
      } else {
        assert parts[i] == rest[i];
        SplitChars(s[1..], sep, i, x);
      }
    }
  }

  /** A replacement by something no longer than the pattern never lengthens the text,
      and strictly shortens it when the pattern occurs. */
  lemma {:induction false} ReplaceAllShrinks(s: string, pat: string, rep: string)
    requires |pat| > 0 && |rep| <= |pat|
    ensures |ReplaceAll(s, pat, rep)| <= |s|
    ensures Contains(s, pat) && |rep| < |pat| ==> |ReplaceAll(s, pat, rep)| < |s|
    decreases |s|
  {
    if |s| == 0 {
    } else if pat <= s {
      ReplaceAllShrinks(s[|pat|..], pat, rep);
    } else {
      ReplaceAllShrinks(s[1..], pat, rep);
    }
  }

  /** A pattern that is absent is left alone. */
  lemma {:induction false} ReplaceAbsent(s: string, pat: string, rep: string)
    requires |pat| > 0 && !Contains(s, pat)
    ensures ReplaceAll(s, pat, rep) == s
    decreases |s|
  {
    if |s| > 0 {
      ReplaceAbsent(s[1..], pat, rep);
      assert s == [s[0]] + s[1..];
    }
  }
}
