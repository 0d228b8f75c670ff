/** `parse_list_from_string` (bgcval2/analysis_timeseries.py:244-255): a YAML entry that
    is already a list is kept; a string is cleaned and cut at single spaces.

    The string path is four rounds of `str.replace` followed by `split(' ')`. Its meaning
    is stated through an independent reference: map tabs and commas to spaces, delete
    quotes and semicolons, squeeze every run of spaces to one space, then split. */
module ListParsing {
  import opened Outcomes
  import opened Text
  import opened PyValues

  // ---------------------------------------------------------------------------------
  // The reference: character classes, squeezing, cleaning

  /** Characters that act as separators before the split. */
  const Separators: set<char> := {'\t', ','}

  /** Characters that are deleted outright. */
  const Quotes: set<char> := {'\'', '"', ';'}

  /** Every character of `cs` replaced by a space. */
  function ToSpace(s: string, cs: set<char>): (r: string)
    ensures |r| == |s|
    ensures forall x :: x in r ==> (x in s && x !in cs) || x == ' '
    decreases |s|
  {
    if |s| == 0 then ""
    else [if s[0] in cs then ' ' else s[0]] + ToSpace(s[1..], cs)
  }

  /** Every character of `cs` deleted. */
  function DropChars(s: string, cs: set<char>): (r: string)
    ensures |r| <= |s|
    ensures forall x :: x in r ==> x in s && x !in cs
    decreases |s|
  {
    if |s| == 0 then ""
    else (if s[0] in cs then "" else [s[0]]) + DropChars(s[1..], cs)
  }

  /** Squeeze runs of spaces: a space is emitted only when the previous emitted
      character (`afterSpace`) was not a space. */
  function Squeeze(s: string, afterSpace: bool): (r: string)
    ensures forall x :: x in r ==> x in s
    ensures !Contains(r, "  ")
    ensures afterSpace && |r| > 0 ==> r[0] != ' '
    decreases |s|
  {
    if |s| == 0 then ""
    else if s[0] == ' ' then
      var rest := Squeeze(s[1..], true);
      if afterSpace then rest
      else
        var r := " " + rest;
        assert r[1..] == rest;
        assert !("  " <= r);
        r
    else
      var rest := Squeeze(s[1..], false);
      var r := [s[0]] + rest;
      assert r[1..] == rest;
      assert r[0] != ' ';
      assert !("  " <= r);
      r
  }

  /** The text after mapping separators to spaces and deleting quotes. */
  function Clean(s: string): (r: string)
    ensures forall x :: x in r ==> x !in Separators && x !in Quotes
  {
    DropChars(ToSpace(s, Separators), Quotes)
  }

  /** The reference meaning of the string path: the cleaned text, squeezed, cut at spaces. */
  function Words(s: string): seq<string> {
    Split(Squeeze(Clean(s), false), " ")
  }

  // ---------------------------------------------------------------------------------
  // The source's procedure

  /** `s.replace(c, rep)` for a single character. */
  function ReplaceChar(s: string, c: char, rep: string): string {
    ReplaceAll(s, [c], rep)
  }

  /** One pass of `s.replace('  ', ' ')`. */
  function HalveSpaces(s: string): string {
    ReplaceAll(s, "  ", " ")
  }

  /** `while s.count('  ') > 0: s = s.replace('  ', ' ')`. Each pass shortens the text,
      so the loop ends, and it ends with no double space left. */
  function CollapseSpaces(s: string): (r: string)
    ensures !Contains(r, "  ")
    decreases |s|
  {
    if Contains(s, "  ") then
      ReplaceAllShrinks(s, "  ", " ");
      CollapseSpaces(HalveSpaces(s))
    else s
  }

  /** The string path of `parse_list_from_string`, step by step as the source does it. */
  function ParseListString(s: string): seq<string> {
    var step1 := HalveSpaces(ReplaceChar(ReplaceChar(s, '\t', " "), ',', " "));
    var step2 := ReplaceChar(ReplaceChar(ReplaceChar(step1, '\'', ""), '"', ""), ';', "");
    Split(CollapseSpaces(step2), " ")
  }

  /** `parse_list_from_string(value)`: a list is returned as it is; a string is parsed;
      anything else has no `replace` method. */
  function ParseList(v: Value): (r: Result<seq<Value>>)
    ensures v.VList? ==> r == Success(v.items)
    ensures v.VStr? ==> r.Success? && |r.value| == |Words(v.s)|
                        && forall i :: 0 <= i < |r.value| ==> r.value[i] == VStr(Words(v.s)[i])
    ensures !v.VList? && !v.VStr? ==> r == Failure(AttributeError("replace"))
  {
    match v
    case VList(items) => Success(items)
    case VStr(s) =>
      var parts := ParseListString(s);
      ParseListIsWords(s);
      Success(seq(|parts|, i requires 0 <= i < |parts| => VStr(parts[i])))
    case _ => Failure(AttributeError("replace"))
  }

  // ---------------------------------------------------------------------------------
  // Single-character replacement is a character map

  lemma {:induction false} ReplaceCharToSpace(s: string, c: char)
    ensures ReplaceChar(s, c, " ") == ToSpace(s, {c})
    decreases |s|
  {
    if |s| > 0 {
      ReplaceCharToSpace(s[1..], c);
      if [c] <= s {
        assert s[0] == c;
      } else {
        assert s[0] != c;
      }
    }
  }

  lemma {:induction false} ReplaceCharDrop(s: string, c: char)
    ensures ReplaceChar(s, c, "") == DropChars(s, {c})
    decreases |s|
  {
    if |s| > 0 {
      ReplaceCharDrop(s[1..], c);
      if [c] <= s {
        assert s[0] == c;
      } else {
        assert s[0] != c;
      }
    }
  }

  lemma {:induction false} ToSpaceTwice(s: string, a: set<char>, b: set<char>)
    ensures ToSpace(ToSpace(s, a), b) == ToSpace(s, a + b)
    decreases |s|
  {
    if |s| > 0 {
      ToSpaceTwice(s[1..], a, b);
      var t := ToSpace(s, a);
      assert t[1..] == ToSpace(s[1..], a);
    }
  }

  lemma {:induction false} DropTwice(s: string, a: set<char>, b: set<char>)
    ensures DropChars(DropChars(s, a), b) == DropChars(s, a + b)
    decreases |s|
  {
    if |s| > 0 {
      DropTwice(s[1..], a, b);
      var t := DropChars(s[1..], a);
      if s[0] !in a {
        assert DropChars(s, a) == [s[0]] + t;
        assert ([s[0]] + t)[1..] == t;
      } else {
        assert DropChars(s, a) == t;
      }
    }
  }

  /** Dropping characters distributes over concatenation with a leading piece. */
  lemma DropCons(x: string, t: string, cs: set<char>)
    requires |x| == 1
    ensures DropChars(x + t, cs) == (if x[0] in cs then "" else x) + DropChars(t, cs)
  {
    assert (x + t)[1..] == t;
  }

  // ---------------------------------------------------------------------------------
  // Squeezing is insensitive to how long the runs of spaces are

  /** After a space, a text not starting with a space squeezes the same either way. */
  lemma SqueezeNoLeadingSpace(s: string)
    requires |s| == 0 || s[0] != ' '
    ensures Squeeze(s, true) == Squeeze(s, false)
  {
  }

  /** A text with no double space is its own squeeze. */
  lemma {:induction false} SqueezeFixed(s: string)
    requires !Contains(s, "  ")
    ensures Squeeze(s, false) == s
    decreases |s|
  {
    if |s| > 0 {
      assert !Contains(s[1..], "  ");
      SqueezeFixed(s[1..]);
      if s[0] == ' ' {
        if |s| > 1 {
          assert !("  " <= s);
          assert s[..2] == [s[0], s[1]];
        }
        SqueezeNoLeadingSpace(s[1..]);
      }
      assert s == [s[0]] + s[1..];
    }
  }

  /** How squeezing treats the first character. */
  lemma SqueezeCons(c: char, t: string, afterSpace: bool)
    ensures Squeeze([c] + t, afterSpace) ==
              if c == ' ' then (if afterSpace then "" else " ") + Squeeze(t, true)
              else [c] + Squeeze(t, false)
  {
    assert ([c] + t)[1..] == t;
  }

  /** The step of `SqueezeDropHalve` for a text starting with a double space. */
  lemma HalveStepSpaces(t: string, q: set<char>, afterSpace: bool)
    requires ' ' !in q
    requires Squeeze(DropChars(HalveSpaces(t), q), true) == Squeeze(DropChars(t, q), true)
    ensures Squeeze(DropChars(HalveSpaces("  " + t), q), afterSpace) == Squeeze(DropChars("  " + t, q), afterSpace)
  {
    var m := "  " + t;
    assert "  " <= m;
    assert m[2..] == t;
    assert HalveSpaces(m) == " " + HalveSpaces(t);
    DropCons(" ", HalveSpaces(t), q);
    assert m == " " + (" " + t);
    DropCons(" ", " " + t, q);
    DropCons(" ", t, q);
    var dh := DropChars(HalveSpaces(t), q);
    var d := DropChars(t, q);
    SqueezeCons(' ', dh, afterSpace);
    SqueezeCons(' ', " " + d, afterSpace);
    SqueezeCons(' ', d, true);
  }

  /** The step of `SqueezeDropHalve` for a text not starting with a double space. */
  lemma HalveStepOther(c: char, t: string, q: set<char>, afterSpace: bool)
    requires ' ' !in q
    requires !("  " <= [c] + t)
    requires Squeeze(DropChars(HalveSpaces(t), q), afterSpace) == Squeeze(DropChars(t, q), afterSpace)
    requires Squeeze(DropChars(HalveSpaces(t), q), c == ' ') == Squeeze(DropChars(t, q), c == ' ')
    ensures Squeeze(DropChars(HalveSpaces([c] + t), q), afterSpace) == Squeeze(DropChars([c] + t, q), afterSpace)
  {
    var m := [c] + t;
    assert m[1..] == t;
    assert HalveSpaces(m) == [c] + HalveSpaces(t);
    DropCons([c], HalveSpaces(t), q);
    DropCons([c], t, q);
    if c !in q {
      SqueezeCons(c, DropChars(HalveSpaces(t), q), afterSpace);
      SqueezeCons(c, DropChars(t, q), afterSpace);
    } else {
      assert DropChars([c] + HalveSpaces(t), q) == DropChars(HalveSpaces(t), q);
      assert DropChars([c] + t, q) == DropChars(t, q);
    }
  }

  /** Halving the runs of spaces, and deleting quote characters either before or after
      it, squeezes to the same text. */
  lemma {:induction false} SqueezeDropHalve(m: string, q: set<char>, afterSpace: bool)
    requires ' ' !in q
    ensures Squeeze(DropChars(HalveSpaces(m), q), afterSpace) == Squeeze(DropChars(m, q), afterSpace)
    decreases |m|
  {
    if |m| == 0 {
    } else if "  " <= m {
      var t := m[2..];
      SqueezeDropHalve(t, q, true);
      assert m == "  " + t;
      HalveStepSpaces(t, q, afterSpace);
    } else {
      var t := m[1..];
      SqueezeDropHalve(t, q, afterSpace);
      SqueezeDropHalve(t, q, m[0] == ' ');
      assert m == [m[0]] + t;
      HalveStepOther(m[0], t, q, afterSpace);
    }
  }

  /** One halving pass does not change the squeezed text. */
  lemma SqueezeHalve(m: string)
    ensures Squeeze(HalveSpaces(m), false) == Squeeze(m, false)
  {
    SqueezeDropHalve(m, {}, false);
    DropNothing(m);
    DropNothing(HalveSpaces(m));
  }

  lemma {:induction false} DropNothing(s: string)
    ensures DropChars(s, {}) == s
    decreases |s|
  {
    if |s| > 0 {
      DropNothing(s[1..]);
      assert s == [s[0]] + s[1..];
    }
  }

  /** The collapsing loop computes the squeezed text. */
  lemma {:induction false} CollapseIsSqueeze(s: string)
    ensures CollapseSpaces(s) == Squeeze(s, false)
    decreases |s|
  {
    if Contains(s, "  ") {
      ReplaceAllShrinks(s, "  ", " ");
      CollapseIsSqueeze(HalveSpaces(s));
      SqueezeHalve(s);
      SqueezeFixed(CollapseSpaces(s));
    } else {
      SqueezeFixed(s);
    }
  }

  // ---------------------------------------------------------------------------------
  // The procedure meets the reference

  /** The first round maps tabs and commas to spaces. */
  lemma SeparatorRound(s: string)
    ensures ReplaceChar(ReplaceChar(s, '\t', " "), ',', " ") == ToSpace(s, Separators)
  {
    ReplaceCharToSpace(s, '\t');
    ReplaceCharToSpace(ReplaceChar(s, '\t', " "), ',');
    ToSpaceTwice(s, {'\t'}, {','});
    assert {'\t'} + {','} == Separators;
  }

  /** The second round deletes quotes and semicolons. */
  lemma QuoteRound(h: string)
    ensures ReplaceChar(ReplaceChar(ReplaceChar(h, '\'', ""), '"', ""), ';', "") == DropChars(h, Quotes)
  {
    var a: set<char> := {'\''};
    var b: set<char> := {'"'};
    var c: set<char> := {';'};
    ReplaceCharDrop(h, '\'');
    var h1 := DropChars(h, a);
    ReplaceCharDrop(h1, '"');
    DropTwice(h, a, b);
    var h2 := DropChars(h, a + b);
    ReplaceCharDrop(h2, ';');
    DropTwice(h, a + b, c);
    assert a + b + c == Quotes;
  }

  /** The four rounds of replacement and the loop amount to cleaning and squeezing. */
  lemma ParseListIsWords(s: string)
    ensures ParseListString(s) == Words(s)
  {
    SeparatorRound(s);
    var m := ToSpace(s, Separators);
    var h := HalveSpaces(m);
    QuoteRound(h);
    var step2 := DropChars(h, Quotes);
    CollapseIsSqueeze(step2);
    SqueezeDropHalve(m, Quotes, false);
  }

  // ---------------------------------------------------------------------------------
  // What the result looks like

  /** When the text has no doubled separator, only the first and last pieces of a split
      at that separator can be empty. */
  lemma {:induction false} SplitInteriorNonEmpty(s: string, c: char)
    requires !Contains(s, [c, c])
    ensures forall i :: 0 < i < |Split(s, [c])| - 1 ==> |Split(s, [c])[i]| > 0
    decreases |s|
  {
    var parts := Split(s, [c]);
    if |s| == 0 {
    } else {
      var t := s[1..];
      assert !Contains(t, [c, c]);
      SplitInteriorNonEmpty(t, c);
      var rest := Split(t, [c]);
      assert forall j :: 0 < j < |rest| - 1 ==> |rest[j]| > 0;
      if [c] <= s {
        assert parts == [""] + rest;
        assert !([c, c] <= s);
        if |t| > 0 {
          assert s[..2] == [c, t[0]];
        }
        SplitHeadNonEmpty(t, c);
        forall i | 0 < i < |parts| - 1
          ensures |parts[i]| > 0
        {
          assert parts[i] == rest[i - 1];
        }
      } else {
        assert parts == [[s[0]] + rest[0]] + rest[1..];
        forall i | 0 < i < |parts| - 1
          ensures |parts[i]| > 0
        {
          assert parts[i] == rest[i];
        }
      }
    }
  }

  /** A text that does not start with the separator has a non-empty first piece unless
      it is the only piece. */
  lemma SplitHeadNonEmpty(t: string, c: char)
    requires |t| == 0 || t[0] != c
    ensures |Split(t, [c])| > 1 ==> |Split(t, [c])[0]| > 0
  {
  }

  lemma {:induction false} AbsentChar(s: string, x: char)
    requires !Contains(s, [x])
    ensures x !in s
    decreases |s|
  {
    if |s| > 0 {
      AbsentChar(s[1..], x);
      assert s == [s[0]] + s[1..];
      assert !([x] <= s);
    }
  }

  /** Splitting at single spaces: no piece holds a space, every character of a piece
      comes from the text, and joining the pieces with spaces gives the text back. */
  lemma SplitAtSpace(z: string)
    ensures forall i :: 0 <= i < |Split(z, " ")| ==> ' ' !in Split(z, " ")[i]
    ensures forall i, x :: 0 <= i < |Split(z, " ")| && x in Split(z, " ")[i] ==> x in z
    ensures Join(Split(z, " "), " ") == z
  {
    var parts := Split(z, " ");
    ReplaceIsSplitJoin(z, " ", " ");
    assert [' '] == " ";
    forall i | 0 <= i < |parts|
      ensures ' ' !in parts[i]
    {
      AbsentChar(parts[i], ' ');
    }
    forall i, x | 0 <= i < |parts| && x in parts[i]
      ensures x in z
    {
      SplitChars(z, " ", i, x);
    }
  }

  /** The shape of a parse result `w` of a text whose squeezed, cleaned form is `z`: never
      empty; no element holds a space, tab, comma, quote or semicolon; only the first or
      last element can be empty; and joining the elements with single spaces gives `z`. */
  predicate Shaped(w: seq<string>, z: string) {
    && |w| > 0
    && (forall i :: 0 <= i < |w| ==> ' ' !in w[i])
    && (forall i, x :: 0 <= i < |w| && x in w[i] ==> x !in Separators && x !in Quotes)
    && (forall i :: 0 < i < |w| - 1 ==> |w[i]| > 0)
    && Join(w, " ") == z
  }

  /** The shape of the reference result. */
  lemma WordsShape(s: string)
    ensures Shaped(Words(s), Squeeze(Clean(s), false))
  {
    var z := Squeeze(Clean(s), false);
    var w := Split(z, " ");
    SplitAtSpace(z);
    assert [' ', ' '] == "  ";
    SplitInteriorNonEmpty(z, ' ');
    forall i, x | 0 <= i < |w| && x in w[i]
      ensures x !in Separators && x !in Quotes
    {
      WordChar(s, i, x);
    }
  }

  /** No word holds a separator or quote character. */
  lemma WordChar(s: string, i: nat, x: char)
    requires i < |Words(s)| && x in Words(s)[i]
    ensures x !in Separators && x !in Quotes
  {
    var c := Clean(s);
    var z := Squeeze(c, false);
    SplitChars(z, " ", i, x);
    assert x in z;
    assert x in c;
  }

  /** `parse_list_from_string` on a string: the result is never empty; no element holds a
      space, tab, comma, quote or semicolon; only the first or last element can be empty;
      and joining the elements with single spaces gives the squeezed, cleaned text. */
  lemma ParseListShape(s: string)
    ensures Shaped(ParseListString(s), Squeeze(Clean(s), false))
  {
    ParseListIsWords(s);
    WordsShape(s);
  }

  /** An empty entry parses to one empty element. */
  lemma EmptyStringParses()
    ensures ParseListString("") == [""]
  {
    ParseListIsWords("");
  }

  lemma CleanCommaExample()
    ensures Clean("a, b") == "a  b"
  {
    assert "a, b"[1..] == ", b" && ", b"[1..] == " b" && " b"[1..] == "b" && "b"[1..] == "";
    assert "a  b"[1..] == "  b" && "  b"[1..] == " b";
    assert ',' in Separators && 'a' !in Separators && ' ' !in Separators && 'b' !in Separators;
    assert 'a' !in Quotes && ' ' !in Quotes && 'b' !in Quotes;
    assert ToSpace("b", Separators) == "b";
    assert ToSpace(" b", Separators) == " b";
    assert ToSpace(", b", Separators) == "  b";
    assert ToSpace("a, b", Separators) == "a  b";
    assert DropChars("b", Quotes) == "b";
    assert DropChars(" b", Quotes) == " b";
    assert DropChars("  b", Quotes) == "  b";
    assert DropChars("a  b", Quotes) == "a  b";
  }

  lemma SqueezeCommaExample()
    ensures Squeeze("a  b", false) == "a b"
  {
    assert "a  b"[1..] == "  b" && "  b"[1..] == " b" && " b"[1..] == "b" && "b"[1..] == "";
    assert Squeeze("b", true) == "b";
    assert Squeeze(" b", true) == "b";
    assert Squeeze("  b", false) == " b";
  }

  lemma SplitCommaExample()
    ensures Split("a b", " ") == ["a", "b"]
  {
    assert "a b"[1..] == " b" && " b"[1..] == "b" && "b"[1..] == "";
    assert !(" " <= "b") && " " <= " b" && !(" " <= "a b");
    assert Split("", " ") == [""];
    assert ['b'] + "" == "b";
    assert Split("b", " ") == ["b"];
    assert Split(" b", " ") == ["", "b"];
    assert ['a'] + "" == "a";
    assert ["", "b"][1..] == ["b"];
  }

  /** A comma-and-space separated entry, `"a, b"`, parses to its two items. */
  lemma CommaListParses()
    ensures ParseListString("a, b") == ["a", "b"]
  {
    ParseListIsWords("a, b");
    CleanCommaExample();
    SqueezeCommaExample();
    SplitCommaExample();
  }
}
