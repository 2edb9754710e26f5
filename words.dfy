/** Splitting the entered text into words the way the page does it:
    `text.trim().split(/\s+/)`. Both `trim` and the regular-expression class `\s`
    use the ECMAScript WhiteSpace and LineTerminator code points. */
module TextWords {

  /** ECMAScript WhiteSpace (tab, vertical tab, form feed, space, no-break space,
      zero-width no-break space and every Unicode "Zs" separator) and
      LineTerminator (line feed, carriage return, U+2028, U+2029). */
  const Whitespace: string := "\t\n\U{000B}\U{000C}\r \U{00A0}\U{1680}\U{2000}\U{2001}\U{2002}\U{2003}\U{2004}\U{2005}\U{2006}\U{2007}\U{2008}\U{2009}\U{200A}\U{2028}\U{2029}\U{202F}\U{205F}\U{3000}\U{FEFF}"

  /** `c` is one of the `Whitespace` characters. Membership is spelled out as a
      recursive walk over the list, rather than `c in Whitespace`, so that the
      solver unfolds it only as far as a proof needs instead of expanding all 25
      cases wherever whitespace is mentioned. */
  predicate IsSpace(c: char)
  {
    Occurs(c, Whitespace)
  }

  /** `c` occurs in `chars`. */
  predicate Occurs(c: char, chars: string)
  {
    chars != [] && (chars[0] == c || Occurs(c, chars[1..]))
  }

  predicate NoSpace(w: string)
  {
    forall p :: 0 <= p < |w| ==> !IsSpace(w[p])
  }

  predicate AllSpace(s: string)
  {
    forall p :: 0 <= p < |s| ==> IsSpace(s[p])
  }

  /** Leading whitespace removed (see `TrimStartCut`). */
  function TrimStart(s: string): string
  {
    if s != [] && IsSpace(s[0]) then TrimStart(s[1..]) else s
  }

  /** Trailing whitespace removed (see `TrimEndCut`). */
  function TrimEnd(s: string): string
  {
    if s != [] && IsSpace(s[|s| - 1]) then TrimEnd(s[..|s| - 1]) else s
  }

  /** `String.prototype.trim`: no longer than `s`, and neither starting nor
      ending with whitespace. */
  function Trim(s: string): (r: string)
    ensures |r| <= |s|
    ensures r != [] ==> !IsSpace(r[0]) && !IsSpace(r[|r| - 1])
  {
    TrimStartCut(s);
    TrimEndCut(TrimStart(s));
    TrimEnd(TrimStart(s))
  }

  /** Length of the run of non-whitespace characters that starts `s`. */
  function NonSpaceRun(s: string): (n: nat)
    ensures n <= |s| && NoSpace(s[..n]) && (n < |s| ==> IsSpace(s[n]))
  {
    if s == [] || IsSpace(s[0]) then 0 else 1 + NonSpaceRun(s[1..])
  }

  /** Length of the run of whitespace characters that starts `s`. */
  function SpaceRun(s: string): (n: nat)
    ensures n <= |s| && AllSpace(s[..n]) && (n < |s| ==> !IsSpace(s[n]))
  {
    if s == [] || !IsSpace(s[0]) then 0 else 1 + SpaceRun(s[1..])
  }

  /** `s.split(/\s+/)`: the pieces between the maximal whitespace runs of `s`,
      leftmost first. A leading (trailing) run gives an empty first (last) piece,
      and the empty string gives the single piece `""`. */
  function Split(s: string): (words: seq<string>)
    ensures |words| >= 1
    decreases |s|
  {
    var i := NonSpaceRun(s);
    if i == |s| then
      assert s[..i] == s;
      [s]
    else
      var j := i + SpaceRun(s[i..]);
      [s[..i]] + Split(s[j..])
  }

  /** The words the fit search measures one by one: at least one, and the
      single empty word when nothing but whitespace is left after trimming. */
  function Words(text: string): (words: seq<string>)
    ensures |words| >= 1
    ensures Trim(text) == "" ==> words == [""]
  {
    Split(Trim(text))
  }

  /** `words.join(sep)`. */
  function Join(words: seq<string>, sep: string): string
  {
    if |words| == 0 then ""
    else if |words| == 1 then words[0]
    else words[0] + sep + Join(words[1..], sep)
  }

  /** `s` with every maximal whitespace run replaced by a single space, defined
      one character at a time: a whitespace character followed by another one is
      dropped, any other whitespace character becomes a space. */
  function Collapse(s: string): string
  {
    if s == [] then []
    else if IsSpace(s[0]) then
      (if |s| > 1 && IsSpace(s[1]) then Collapse(s[1..]) else " " + Collapse(s[1..]))
    else [s[0]] + Collapse(s[1..])
  }

  /** `TrimStart` cuts off a prefix made only of whitespace, and what it keeps
      does not start with whitespace. */
  lemma {:induction false} TrimStartCut(s: string)
    ensures |TrimStart(s)| <= |s| && TrimStart(s) == s[|s| - |TrimStart(s)|..]
    ensures AllSpace(s[..|s| - |TrimStart(s)|])
    ensures TrimStart(s) != [] ==> !IsSpace(TrimStart(s)[0])
  {
    if s != [] && IsSpace(s[0]) {
      TrimStartCut(s[1..]);
      var r := TrimStart(s[1..]);
      assert s[1..][|s| - 1 - |r|..] == s[|s| - |r|..];
      var cut := s[..|s| - |r|];
      forall p | 0 <= p < |cut| ensures IsSpace(cut[p]) {
        if p > 0 {
          assert cut[p] == s[1..][..|s| - 1 - |r|][p - 1];
        }
      }
    }
  }

  /** `TrimEnd` cuts off a suffix made only of whitespace, and what it keeps
      does not end with whitespace. */
  lemma {:induction false} TrimEndCut(s: string)
    ensures |TrimEnd(s)| <= |s| && TrimEnd(s) == s[..|TrimEnd(s)|]
    ensures AllSpace(s[|TrimEnd(s)|..])
    ensures TrimEnd(s) != [] ==> !IsSpace(TrimEnd(s)[|TrimEnd(s)| - 1])
  {
    if s != [] && IsSpace(s[|s| - 1]) {
      var init := s[..|s| - 1];
      TrimEndCut(init);
      var r := TrimEnd(init);
      assert init[..|r|] == s[..|r|];
      var cut := s[|r|..];
      forall p | 0 <= p < |cut| ensures IsSpace(cut[p]) {
        if p < |cut| - 1 {
          assert cut[p] == init[|r|..][p];
        }
      }
    }
  }

  /** No piece of a split contains whitespace. */
  lemma {:induction false} SplitHasNoSpace(s: string)
    ensures forall k :: 0 <= k < |Split(s)| ==> NoSpace(Split(s)[k])
    decreases |s|
  {
    var i := NonSpaceRun(s);
    if i == |s| {
      assert s[..i] == s;
    } else {
      var j := i + SpaceRun(s[i..]);
      var rest := Split(s[j..]);
      SplitHasNoSpace(s[j..]);
      assert Split(s) == [s[..i]] + rest;
      forall k | 0 <= k < |Split(s)| ensures NoSpace(Split(s)[k]) {
        if k > 0 {
          assert Split(s)[k] == rest[k - 1];
        }
      }
    }
  }

  /** What `trim` keeps is a slice of the input with only whitespace cut off on
      either side; it is empty exactly when the input is all whitespace, and
      otherwise starts and ends with a non-whitespace character. */
  lemma TrimIsSlice(s: string)
    ensures var r := Trim(s);
      exists i :: 0 <= i <= |s| - |r| && r == s[i..i + |r|] && AllSpace(s[..i]) && AllSpace(s[i + |r|..])
    ensures Trim(s) != [] ==> !IsSpace(Trim(s)[0]) && !IsSpace(Trim(s)[|Trim(s)| - 1])
    ensures Trim(s) == [] <==> AllSpace(s)
  {
    var t := TrimStart(s);
    var r := TrimEnd(t);
    TrimStartCut(s);
    TrimEndCut(t);
    var i := |s| - |t|;
    assert r == s[i..i + |r|];
    assert s[i + |r|..] == t[|r|..];
    if r != [] {
      assert r[0] == t[0];
    }
    if r == [] {
      assert t == [];
      forall p | 0 <= p < |s| ensures IsSpace(s[p]) {
        assert s[p] == s[..i][p];
      }
    }
  }

  lemma {:induction false} CollapseNonSpacePrefix(s: string, i: nat)
    requires i <= |s| && NoSpace(s[..i])
    ensures Collapse(s) == s[..i] + Collapse(s[i..])
  {
    if i > 0 {
      assert s[0] == s[..i][0];
      assert s[1..][..i - 1] == s[1..i];
      var tail := s[1..][..i - 1];
      forall p | 0 <= p < |tail| ensures !IsSpace(tail[p]) {
        assert tail[p] == s[..i][p + 1];
      }
      CollapseNonSpacePrefix(s[1..], i - 1);
      assert s[1..][i - 1..] == s[i..];
      assert [s[0]] + s[1..i] == s[..i];
    }
  }

  lemma {:induction false} CollapseSpaceRun(s: string, j: nat)
    requires 1 <= j <= |s| && AllSpace(s[..j]) && (j < |s| ==> !IsSpace(s[j]))
    ensures Collapse(s) == " " + Collapse(s[j..])
  {
    assert IsSpace(s[..j][0]);
    if j == 1 {
      assert |s| > 1 ==> !IsSpace(s[1]);
    } else {
      assert IsSpace(s[..j][1]);
      var tail := s[1..][..j - 1];
      forall p | 0 <= p < |tail| ensures IsSpace(tail[p]) {
        assert tail[p] == s[..j][p + 1];
      }
      CollapseSpaceRun(s[1..], j - 1);
      assert s[1..][j - 1..] == s[j..];
    }
  }

  /** One step of the split: the leading word, then the split of what follows
      the whitespace run after it. */
  lemma {:induction false} SplitStep(s: string)
    requires NonSpaceRun(s) < |s|
    ensures var i := NonSpaceRun(s);
      var n := SpaceRun(s[i..]);
      1 <= n && Split(s) == [s[..i]] + Split(s[i + n..])
  {
    var i := NonSpaceRun(s);
    assert s[i..][0] == s[i];
  }

  /** One step of the collapse: the leading word, one space, then the collapse
      of what follows the whitespace run after it. */
  lemma {:induction false} CollapseStep(s: string)
    requires NonSpaceRun(s) < |s|
    ensures var i := NonSpaceRun(s);
      var n := SpaceRun(s[i..]);
      1 <= n && Collapse(s) == s[..i] + " " + Collapse(s[i + n..])
  {
    var i := NonSpaceRun(s);
    var gap := s[i..];
    var n := SpaceRun(gap);
    assert gap[0] == s[i];
    CollapseNonSpacePrefix(s, i);
    CollapseSpaceRun(gap, n);
    assert gap[n..] == s[i + n..];
  }

  lemma {:induction false} JoinCons(word: string, rest: seq<string>, sep: string)
    requires |rest| >= 1
    ensures Join([word] + rest, sep) == word + sep + Join(rest, sep)
  {
    assert ([word] + rest)[1..] == rest;
  }

  /** Joining the pieces of `split(/\s+/)` with single spaces gives back the
      input with each whitespace run collapsed to one space. */
  lemma {:induction false} JoinSplitIsCollapse(s: string)
    ensures Join(Split(s), " ") == Collapse(s)
    decreases |s|
  {
    var i := NonSpaceRun(s);
    if i == |s| {
      CollapseNonSpacePrefix(s, i);
      assert s[..i] == s && s[i..] == [];
    } else {
      var j := i + SpaceRun(s[i..]);
      SplitStep(s);
      CollapseStep(s);
      JoinCons(s[..i], Split(s[j..]), " ");
      JoinSplitIsCollapse(s[j..]);
    }
  }

  /** A string with no whitespace at either end splits into non-empty words. */
  lemma {:induction false} SplitTrimmedNonEmpty(s: string)
    requires s != [] && !IsSpace(s[0]) && !IsSpace(s[|s| - 1])
    ensures forall k :: 0 <= k < |Split(s)| ==> Split(s)[k] != []
    decreases |s|
  {
    var i := NonSpaceRun(s);
    assert i >= 1;
    if i < |s| {
      SplitStep(s);
      var gap := s[i..];
      var n := SpaceRun(gap);
      var j := i + n;
      var tail := s[j..];
      assert tail != [] && !IsSpace(tail[0]) && !IsSpace(tail[|tail| - 1]) by {
        assert IsSpace(s[j - 1]) by {
          assert s[j - 1] == gap[..n][n - 1];
        }
        assert j < |s|;
        assert tail[0] == gap[n];
        assert tail[|tail| - 1] == s[|s| - 1];
      }
      SplitTrimmedNonEmpty(tail);
      PrependNonEmpty(s[..i], Split(tail));
    }
  }

  lemma PrependNonEmpty(word: string, rest: seq<string>)
    requires word != [] && forall k :: 0 <= k < |rest| ==> rest[k] != []
    ensures forall k :: 0 <= k < |[word] + rest| ==> ([word] + rest)[k] != []
  {
    forall k | 0 <= k < |[word] + rest| ensures ([word] + rest)[k] != [] {
      if k > 0 {
        assert ([word] + rest)[k] == rest[k - 1];
      }
    }
  }

  /** No word contains whitespace. */
  lemma WordsHaveNoSpace(text: string)
    ensures forall k :: 0 <= k < |Words(text)| ==> NoSpace(Words(text)[k])
  {
    SplitHasNoSpace(Trim(text));
  }

  /** Whitespace-only (or empty) text gives exactly one word, the empty one;
      any other text gives only non-empty words. */
  lemma WordsOfBlankText(text: string)
    ensures Words(text) == [""] <==> AllSpace(text)
    ensures !AllSpace(text) ==> forall k :: 0 <= k < |Words(text)| ==> Words(text)[k] != []
  {
    TrimIsSlice(text);
    var t := Trim(text);
    if t == [] {
      assert NonSpaceRun(t) == 0;
      assert Words(text) == [""];
    } else {
      SplitTrimmedNonEmpty(t);
      assert Words(text)[0] != [];
    }
  }

  /** The words, joined by single spaces, are the trimmed text with each
      whitespace run collapsed to one space. */
  lemma WordsJoinToCollapsedText(text: string)
    ensures Join(Words(text), " ") == Collapse(Trim(text))
  {
    JoinSplitIsCollapse(Trim(text));
  }
}
