/** `toPerfectTitleCase` (DynamicQuoteForm.tsx): the label derived from a field or
    stage name. It splits camelCase humps with a space, collapses each run of white
    space to one space, trims, and writes every word with an upper-case first
    letter and lower-case rest. Case mapping is ASCII-only here. */
module TitleCase {
  import opened Text

  /** `s.replace(/([a-z])([A-Z])/g, '$1 $2')`: a space between every lower-case
      letter and the upper-case letter that follows it. */
  function SplitCamel(s: string): string
    decreases |s|
  {
    if |s| < 2 then s
    else if IsLowerAscii(s[0]) && IsUpperAscii(s[1]) then [s[0], ' ', s[1]] + SplitCamel(s[2..])
    else [s[0]] + SplitCamel(s[1..])
  }

  /** `s.replace(/\s+/g, ' ')`: every maximal run of white space becomes one space. */
  function CollapseSpaces(s: string): string
    decreases |s|
  {
    if s == [] then []
    else if IsSpace(s[0]) then [' '] + CollapseSpaces(TrimStart(s[1..]))
    else [s[0]] + CollapseSpaces(s[1..])
  }

  /** The string the words are split from. */
  function Normalize(s: string): string {
    Trim(CollapseSpaces(SplitCamel(s)))
  }

  /** `word.charAt(0).toUpperCase() + word.slice(1).toLowerCase()` */
  function Capitalize(w: string): string {
    if w == [] then [] else [ToUpperChar(w[0])] + ToLower(w[1..])
  }

  function CapitalizeAll(ws: seq<string>): (r: seq<string>)
    ensures |r| == |ws|
    ensures forall i :: 0 <= i < |ws| ==> r[i] == Capitalize(ws[i])
  {
    if ws == [] then [] else [Capitalize(ws[0])] + CapitalizeAll(ws[1..])
  }

  /** The words of the result. */
  function TitleWords(input: string): seq<string> {
    if input == "" then [] else CapitalizeAll(Split(Normalize(input), ' '))
  }

  /** `toPerfectTitleCase(input)` */
  function ToPerfectTitleCase(input: string): string {
    if input == "" then "" else Join(TitleWords(input), ' ')
  }

  // ----- the specification -----

  /** A word as the result writes it: non-empty, no white space, no lower-case
      first letter and no upper-case letter after it. */
  predicate TitleWord(w: string) {
    && w != []
    && NoSpace(w)
    && !IsLowerAscii(w[0])
    && forall i :: 1 <= i < |w| ==> !IsUpperAscii(w[i])
  }

  /** The non-white-space characters of a string, lower-cased: what the
      transformation must keep. */
  function Fold(s: string): string {
    if s == [] then [] else (if IsSpace(s[0]) then [] else [ToLowerChar(s[0])]) + Fold(s[1..])
  }

  /** A string whose only white space is single ASCII spaces between other characters. */
  predicate SingleSpaced(n: string) {
    && (forall i :: 0 <= i < |n| && IsSpace(n[i]) ==> n[i] == ' ')
    && (forall i :: 0 <= i < |n| - 1 ==> n[i] == ' ' ==> n[i + 1] != ' ')
    && (n != [] ==> n[0] != ' ' && n[|n| - 1] != ' ')
  }

  lemma {:induction false} FoldAppend(a: string, b: string)
    ensures Fold(a + b) == Fold(a) + Fold(b)
  {
    if a == [] {
      assert a + b == b;
    } else {
      assert (a + b)[0] == a[0] && (a + b)[1..] == a[1..] + b;
      FoldAppend(a[1..], b);
    }
  }

  lemma {:induction false} FoldEmptyIffSpace(s: string)
    ensures Fold(s) == [] <==> AllSpace(s)
  {
    if s != [] {
      FoldEmptyIffSpace(s[1..]);
      assert AllSpace(s) <==> IsSpace(s[0]) && AllSpace(s[1..]) by {
        if AllSpace(s) { assert forall i :: 0 <= i < |s[1..]| ==> s[1..][i] == s[i + 1]; }
        if IsSpace(s[0]) && AllSpace(s[1..]) {
          forall i | 0 <= i < |s| ensures IsSpace(s[i]) { if i > 0 { assert s[i] == s[1..][i - 1]; } }
        }
      }
    }
  }

  /** One step of `Fold`: the first character, unless blank, lower-cased. */
  lemma FoldCons(c: char, s: string)
    ensures Fold([c] + s) == (if IsSpace(c) then [] else [ToLowerChar(c)]) + Fold(s)
  {
    assert ([c] + s)[0] == c && ([c] + s)[1..] == s;
  }

  /** The space inserted at a hump is dropped by `Fold`. */
  lemma FoldHump(x: char, y: char, r: string, t: string)
    requires !IsSpace(x) && !IsSpace(y) && Fold(r) == Fold(t)
    ensures Fold([x] + ([' '] + ([y] + r))) == Fold([x] + ([y] + t))
  {
    FoldCons(y, r);
    FoldCons(y, t);
    FoldCons(' ', [y] + r);
    FoldCons(x, [' '] + ([y] + r));
    FoldCons(x, [y] + t);
  }

  lemma {:induction false} FoldSplitCamel(s: string)
    ensures Fold(SplitCamel(s)) == Fold(s)
    decreases |s|
  {
    if |s| >= 2 {
      if IsLowerAscii(s[0]) && IsUpperAscii(s[1]) {
        FoldSplitCamel(s[2..]);
        FoldHump(s[0], s[1], SplitCamel(s[2..]), s[2..]);
        assert SplitCamel(s) == [s[0]] + ([' '] + ([s[1]] + SplitCamel(s[2..])));
        assert s == [s[0]] + ([s[1]] + s[2..]);
      } else {
        FoldSplitCamel(s[1..]);
        FoldCons(s[0], SplitCamel(s[1..]));
        FoldCons(s[0], s[1..]);
        assert s == [s[0]] + s[1..];
      }
    }
  }

  lemma {:induction false} FoldCollapse(s: string)
    ensures Fold(CollapseSpaces(s)) == Fold(s)
    decreases |s|
  {
    if s != [] {
      if IsSpace(s[0]) {
        var rest := s[1..];
        var t := TrimStart(rest);
        FoldCollapse(t);
        FoldAppend([' '], CollapseSpaces(t));
        assert rest == rest[..|rest| - |t|] + t;
        FoldAppend(rest[..|rest| - |t|], t);
        FoldEmptyIffSpace(rest[..|rest| - |t|]);
      } else {
        FoldCollapse(s[1..]);
        FoldAppend([s[0]], CollapseSpaces(s[1..]));
      }
    }
  }

  lemma FoldTrim(s: string)
    ensures Fold(Trim(s)) == Fold(s)
  {
    var pre, post := TrimPadding(s);
    FoldAppend(pre + Trim(s), post);
    FoldAppend(pre, Trim(s));
    FoldEmptyIffSpace(pre);
    FoldEmptyIffSpace(post);
  }

  /** Upper-casing a character does not change its lower-case form. */
  lemma UpperThenLower(c: char)
    ensures ToLowerChar(ToUpperChar(c)) == ToLowerChar(c)
  {
  }

  lemma FoldCapitalize(w: string)
    ensures Fold(Capitalize(w)) == Fold(w)
  {
    if w != [] {
      FoldLower(w[1..]);
      UpperThenLower(w[0]);
      CaseChar(w[0]);
      FoldCons(ToUpperChar(w[0]), ToLower(w[1..]));
      FoldCons(w[0], w[1..]);
      assert w == [w[0]] + w[1..];
    }
  }

  lemma {:induction false} FoldLower(s: string)
    ensures Fold(ToLower(s)) == Fold(s)
  {
    if s != [] {
      FoldLower(s[1..]);
      assert ToLower(s) == [ToLowerChar(s[0])] + ToLower(s[1..]);
      FoldAppend([ToLowerChar(s[0])], ToLower(s[1..]));
    }
  }

  lemma {:induction false} FoldJoinCapitalized(ws: seq<string>)
    ensures Fold(Join(CapitalizeAll(ws), ' ')) == Fold(Join(ws, ' '))
  {
    if |ws| == 1 {
      FoldCapitalize(ws[0]);
    } else if |ws| > 1 {
      var cs := CapitalizeAll(ws);
      assert cs[1..] == CapitalizeAll(ws[1..]);
      FoldJoinCapitalized(ws[1..]);
      FoldCapitalize(ws[0]);
      FoldAppend(cs[0] + [' '], Join(cs[1..], ' '));
      FoldAppend(cs[0], [' ']);
      FoldAppend(ws[0] + [' '], Join(ws[1..], ' '));
      FoldAppend(ws[0], [' ']);
    }
  }

  lemma {:induction false} CollapseHead(s: string)
    requires s != [] && !IsSpace(s[0])
    ensures CollapseSpaces(s) != [] && CollapseSpaces(s)[0] == s[0]
  {
  }

  /** After collapsing, the only white space left is the ASCII space. */
  lemma {:induction false} CollapseOnlyBlanks(s: string)
    ensures forall i :: 0 <= i < |CollapseSpaces(s)| ==> IsSpace(CollapseSpaces(s)[i]) ==> CollapseSpaces(s)[i] == ' '
    decreases |s|
  {
    if s != [] {
      var c := CollapseSpaces(s);
      var rest := if IsSpace(s[0]) then TrimStart(s[1..]) else s[1..];
      CollapseOnlyBlanks(rest);
      var cr := CollapseSpaces(rest);
      assert c == [if IsSpace(s[0]) then ' ' else s[0]] + cr;
      forall i | 0 <= i < |c| && IsSpace(c[i]) ensures c[i] == ' ' {
        if i > 0 {
          assert c[i] == cr[i - 1];
        }
      }
    }
  }

  /** After collapsing, no two spaces are adjacent. */
  lemma {:induction false} CollapseNoDoubleBlanks(s: string)
    ensures forall i :: 0 <= i < |CollapseSpaces(s)| - 1 ==> CollapseSpaces(s)[i] == ' ' ==> CollapseSpaces(s)[i + 1] != ' '
    decreases |s|
  {
    if s != [] {
      var c := CollapseSpaces(s);
      var rest := if IsSpace(s[0]) then TrimStart(s[1..]) else s[1..];
      CollapseNoDoubleBlanks(rest);
      var cr := CollapseSpaces(rest);
      assert c == [c[0]] + cr;
      if IsSpace(s[0]) && rest != [] { CollapseHead(rest); }
      forall i | 0 <= i < |c| - 1 && c[i] == ' ' ensures c[i + 1] != ' ' {
        if i > 0 { assert c[i] == cr[i - 1] && c[i + 1] == cr[i]; }
      }
    }
  }

  /** Any infix of a string keeps those two properties. */
  lemma InfixKeepsBlanks(c: string, k: nat, r: string)
    requires k + |r| <= |c| && r == c[k..k + |r|]
    requires forall i :: 0 <= i < |c| ==> IsSpace(c[i]) ==> c[i] == ' '
    requires forall i :: 0 <= i < |c| - 1 ==> c[i] == ' ' ==> c[i + 1] != ' '
    ensures forall i :: 0 <= i < |r| ==> IsSpace(r[i]) ==> r[i] == ' '
    ensures forall i :: 0 <= i < |r| - 1 ==> r[i] == ' ' ==> r[i + 1] != ' '
  {
    forall i | 0 <= i < |r| ensures r[i] == c[k + i] { }
  }

  lemma NormalizeSingleSpaced(s: string)
    ensures SingleSpaced(Normalize(s))
  {
    var c := CollapseSpaces(SplitCamel(s));
    CollapseOnlyBlanks(SplitCamel(s));
    CollapseNoDoubleBlanks(SplitCamel(s));
    var pre, post := TrimPadding(c);
    InfixOfConcat(pre, Trim(c), post);
    InfixKeepsBlanks(c, |pre|, Trim(c));
  }

  /** The parts of a single-spaced non-empty string split on spaces are non-empty
      and hold no white space. */
  lemma {:induction false} SplitSingleSpaced(n: string)
    requires SingleSpaced(n) && n != []
    ensures forall p :: p in Split(n, ' ') ==> p != [] && NoSpace(p)
    decreases |n|
  {
    if ' ' in n {
      var i := IndexOf(n, ' ');
      var rest := n[i + 1..];
      assert i > 0 && i < |n| - 1;
      assert rest != [] && rest[0] != ' ';
      assert SingleSpaced(rest) by {
        assert forall j :: 0 <= j < |rest| ==> rest[j] == n[i + 1 + j];
      }
      SplitSingleSpaced(rest);
      var head := n[..i];
      assert NoSpace(head) by {
        forall j | 0 <= j < |head| ensures !IsSpace(head[j]) {
          assert head[j] == n[j];
          assert head[j] in head;
        }
      }
    } else {
      forall j | 0 <= j < |n| ensures !IsSpace(n[j]) {
        assert n[j] in n;
      }
    }
  }

  /** Case mapping keeps white space and leaves no letter of the other case. */
  lemma CaseChar(c: char)
    ensures IsSpace(ToLowerChar(c)) == IsSpace(c) && !IsUpperAscii(ToLowerChar(c))
    ensures IsSpace(ToUpperChar(c)) == IsSpace(c) && !IsLowerAscii(ToUpperChar(c))
  {
  }

  lemma CapitalizeTitleWord(w: string)
    requires w != [] && NoSpace(w)
    ensures TitleWord(Capitalize(w))
  {
    var c := Capitalize(w);
    assert c[0] == ToUpperChar(w[0]);
    CaseChar(w[0]);
    forall i | 1 <= i < |c| ensures c[i] == ToLowerChar(w[i]) && !IsSpace(c[i]) && !IsUpperAscii(c[i]) {
      assert c[i] == ToLower(w[1..])[i - 1] == ToLowerChar(w[i]);
      CaseChar(w[i]);
    }
  }


  /** Normalizing keeps every non-white-space character, in order, up to case. */
  lemma NormalizeFold(input: string)
    ensures Fold(Normalize(input)) == Fold(input)
  {
    FoldSplitCamel(input);
    FoldCollapse(SplitCamel(input));
    FoldTrim(CollapseSpaces(SplitCamel(input)));
  }

  /** `toPerfectTitleCase` keeps every non-white-space character, in order, up to case. */
  lemma TitleCaseKeepsFold(input: string)
    ensures Fold(ToPerfectTitleCase(input)) == Fold(input)
  {
    if input != "" {
      var n := Normalize(input);
      NormalizeFold(input);
      FoldJoinCapitalized(Split(n, ' '));
      JoinSplit(n, ' ');
    }
  }

  /** Each word of a non-blank input comes out in title case. */
  lemma TitleWordsShape(input: string)
    requires Normalize(input) != []
    ensures forall w :: w in TitleWords(input) ==> TitleWord(w)
  {
    var n := Normalize(input);
    NormalizeSingleSpaced(input);
    SplitSingleSpaced(n);
    var ws := TitleWords(input);
    forall w | w in ws ensures TitleWord(w) {
      var i :| 0 <= i < |ws| && ws[i] == w;
      var parts := Split(n, ' ');
      assert parts[i] in parts;
      CapitalizeTitleWord(parts[i]);
    }
  }

  /** The result is empty exactly when the input is all white space. */
  lemma TitleCaseEmptyIff(input: string)
    ensures ToPerfectTitleCase(input) == [] <==> AllSpace(input)
  {
    TitleCaseKeepsFold(input);
    FoldEmptyIffSpace(input);
    FoldEmptyIffSpace(ToPerfectTitleCase(input));
    if AllSpace(input) && input != "" {
      var n := Normalize(input);
      NormalizeFold(input);
      FoldEmptyIffSpace(n);
      assert n == [];
      assert TitleWords(input) == [""];
    }
  }

  /** A non-blank input leaves something to split into words. */
  lemma NormalizeNonBlank(input: string)
    requires !AllSpace(input)
    ensures Normalize(input) != []
  {
    TitleCaseEmptyIff(input);
    assert Normalize(input) == [] ==> TitleWords(input) == [""];
  }

  // ----- where the words break -----

  /** A lower-case letter at `i` followed by an upper-case one: a camelCase hump. */
  predicate Hump(s: string, i: int) {
    0 <= i && i + 1 < |s| && IsLowerAscii(s[i]) && IsUpperAscii(s[i + 1])
  }

  /** The hump split written position by position from `k`: every character of `s`,
      each followed by a space exactly when it starts a hump. */
  function HumpsFrom(s: string, k: nat): string
    decreases |s| - k
  {
    if k >= |s| then [] else [s[k]] + (if Hump(s, k) then " " else "") + HumpsFrom(s, k + 1)
  }

  /** The replacement puts a space between `s[i]` and `s[i + 1]` exactly at the humps
      and nowhere else; the humps never overlap, so every one of them is matched. */
  lemma {:induction false} SplitCamelIsHumps(s: string, k: nat)
    requires k <= |s|
    ensures SplitCamel(s[k..]) == HumpsFrom(s, k)
    decreases |s| - k
  {
    var t := s[k..];
    if |t| == 1 {
      assert HumpsFrom(s, k + 1) == [] && !Hump(s, k);
    } else if |t| >= 2 {
      assert t[0] == s[k] && t[1] == s[k + 1];
      if Hump(s, k) {
        assert t[2..] == s[k + 2..];
        SplitCamelIsHumps(s, k + 2);
        assert !Hump(s, k + 1);
        assert HumpsFrom(s, k + 1) == [s[k + 1]] + HumpsFrom(s, k + 2);
      } else {
        assert t[1..] == s[k + 1..];
        SplitCamelIsHumps(s, k + 1);
      }
    }
  }

  /** The number of non-white-space characters `s` starts with. */
  function WordLength(s: string): (n: nat)
    ensures n <= |s|
    ensures forall i :: 0 <= i < n ==> !IsSpace(s[i])
    ensures n < |s| ==> IsSpace(s[n])
    decreases |s|
  {
    if |s| > 0 && !IsSpace(s[0]) then
      var m := WordLength(s[1..]);
      assert forall i :: 1 <= i < 1 + m ==> s[i] == s[1..][i - 1];
      1 + m
    else 0
  }

  /** The maximal runs of non-white-space characters of `s`, in order. */
  function Words(s: string): (ws: seq<string>)
    ensures forall w :: w in ws ==> w != [] && NoSpace(w)
    decreases |s|
  {
    if s == [] then []
    else if IsSpace(s[0]) then Words(s[1..])
    else
      var n := WordLength(s);
      assert forall i :: 0 <= i < n ==> s[..n][i] == s[i];
      [s[..n]] + Words(s[n..])
  }

  /** Leading white space adds no word. */
  lemma {:induction false} WordsSkipSpaces(p: string, y: string)
    requires AllSpace(p)
    ensures Words(p + y) == Words(y)
  {
    if p != [] {
      assert (p + y)[0] == p[0] && (p + y)[1..] == p[1..] + y;
      assert IsSpace(p[0]);
      assert AllSpace(p[1..]) by { assert forall i :: 0 <= i < |p[1..]| ==> p[1..][i] == p[i + 1]; }
      WordsSkipSpaces(p[1..], y);
    } else {
      assert p + y == y;
    }
  }

  /** Collapsing passes a blank-free prefix through unchanged. */
  lemma {:induction false} CollapseKeepsWord(w: string, r: string)
    requires NoSpace(w)
    ensures CollapseSpaces(w + r) == w + CollapseSpaces(r)
  {
    if w != [] {
      assert (w + r)[0] == w[0] && (w + r)[1..] == w[1..] + r;
      assert !IsSpace(w[0]);
      assert NoSpace(w[1..]) by { assert forall i :: 0 <= i < |w[1..]| ==> w[1..][i] == w[i + 1]; }
      CollapseKeepsWord(w[1..], r);
    } else {
      assert w + r == r;
    }
  }

  /** Collapsing a leading blank run and trimming it first differ only in that run's space. */
  lemma CollapseLead(z: string)
    ensures CollapseSpaces(z) == (if z != [] && IsSpace(z[0]) then " " else "") + CollapseSpaces(TrimStart(z))
  {
    if z != [] && IsSpace(z[0]) {
      assert LeadingSpaces(z) == 1 + LeadingSpaces(z[1..]);
      assert TrimStart(z) == TrimStart(z[1..]);
    } else {
      assert TrimStart(z) == z;
    }
  }

  /** `s` is not empty and ends in white space. */
  predicate EndsBlank(s: string) {
    s != [] && IsSpace(s[|s| - 1])
  }

  /** A string that starts with a word: that word, then the rest. */
  lemma WordStep(x: string)
    requires x != [] && !IsSpace(x[0])
    ensures var n := WordLength(x);
      && CollapseSpaces(x) == x[..n] + CollapseSpaces(x[n..])
      && Words(x) == [x[..n]] + Words(x[n..])
  {
    var n := WordLength(x);
    assert x == x[..n] + x[n..];
    assert NoSpace(x[..n]) by { assert forall i :: 0 <= i < n ==> x[..n][i] == x[i]; }
    CollapseKeepsWord(x[..n], x[n..]);
  }

  /** A string that starts with white space: one space, then what follows the run. */
  lemma BlankStep(r: string)
    requires r != [] && IsSpace(r[0])
    ensures |TrimStart(r)| < |r|
    ensures CollapseSpaces(r) == " " + CollapseSpaces(TrimStart(r))
    ensures Words(r) == Words(TrimStart(r))
    ensures TrimStart(r) == [] ==> EndsBlank(r)
    ensures TrimStart(r) != [] ==> EndsBlank(r) == EndsBlank(TrimStart(r))
  {
    CollapseLead(r);
    var pre := TrimStartPadding(r);
    WordsSkipSpaces(pre, TrimStart(r));
    assert r[0] == pre[0];
  }

  /** From a word boundary, collapsing is the words joined by single spaces, with one
      more space when the string ends in white space. */
  lemma {:induction false} CollapseWords(x: string)
    requires x == [] || !IsSpace(x[0])
    ensures CollapseSpaces(x) == Join(Words(x), ' ') + (if EndsBlank(x) then " " else "")
    decreases |x|
  {
    if x != [] {
      var n := WordLength(x);
      var w, rest := x[..n], x[n..];
      WordStep(x);
      if rest == [] {
        assert x == w && !EndsBlank(x);
        assert Words(x) == [w];
      } else {
        var y := TrimStart(rest);
        var tail := if EndsBlank(x) then " " else "";
        BlankStep(rest);
        assert EndsBlank(x) == EndsBlank(rest) by { assert x[|x| - 1] == rest[|rest| - 1]; }
        assert Words(x) == [w] + Words(y);
        if y == [] {
          assert Words(x) == [w];
          assert CollapseSpaces(x) == w + " ";
        } else {
          CollapseWords(y);
          assert Words(y) != [] by { WordStep(y); }
          JoinCons(w, Words(y), ' ');
          ConsWord(w, Join(Words(y), ' '), tail, CollapseSpaces(y), CollapseSpaces(x), Join(Words(x), ' '));
        }
      }
    }
  }

  /** The step of `CollapseWords` past one word and one blank run. */
  lemma ConsWord(w: string, j: string, tail: string, cy: string, cx: string, jx: string)
    requires cy == j + tail && cx == w + (" " + cy) && jx == w + [' '] + j
    ensures cx == jx + tail
  {
  }

  /** Blank-free non-empty words joined by spaces start and end with a non-blank. */
  lemma {:induction false} JoinWordsEnds(ws: seq<string>)
    requires forall w :: w in ws ==> w != [] && NoSpace(w)
    ensures ws != [] ==> Join(ws, ' ') != [] && !IsSpace(Join(ws, ' ')[0]) && !IsSpace(Join(ws, ' ')[|Join(ws, ' ')| - 1])
    ensures ws == [] ==> Join(ws, ' ') == []
  {
    if |ws| == 1 {
      assert ws[0] in ws;
    } else if |ws| > 1 {
      assert ws[0] in ws;
      assert forall w :: w in ws[1..] ==> w in ws;
      JoinWordsEnds(ws[1..]);
    }
  }

  /** Trimming strips exactly the white-space padding around a string that starts and
      ends with other characters. */
  lemma TrimUnique(pre: string, m: string, post: string)
    requires AllSpace(pre) && AllSpace(post)
    requires m != [] ==> !IsSpace(m[0]) && !IsSpace(m[|m| - 1])
    ensures Trim(pre + m + post) == m
  {
    var s := pre + m + post;
    if m == [] {
      AllSpaceConcat(pre, m);
      AllSpaceConcat(pre + m, post);
    } else {
      var n := LeadingSpaces(s);
      assert s[|pre|] == m[0];
      assert forall i :: 0 <= i < |pre| ==> s[i] == pre[i];
      assert n == |pre|;
      var t := s[n..];
      assert t == m + post;
      var k := TrailingSpaces(t);
      assert t[|m| - 1] == m[|m| - 1];
      assert forall i :: |m| <= i < |t| ==> t[i] == post[i - |m|];
      assert k == |post|;
      assert TrimEnd(t) == m;
    }
  }

  /** The string the words are split from is the input's maximal non-blank runs,
      after the hump split, joined by single spaces. */
  lemma NormalizeIsWords(input: string)
    ensures Normalize(input) == Join(Words(SplitCamel(input)), ' ')
  {
    var z := SplitCamel(input);
    CollapseRuns(z);
  }

  /** Collapsing and trimming any string leaves its runs joined by single spaces. */
  lemma CollapseRuns(z: string)
    ensures Trim(CollapseSpaces(z)) == Join(Words(z), ' ')
  {
    var y := TrimStart(z);
    var pre := TrimStartPadding(z);
    var lead := if z != [] && IsSpace(z[0]) then " " else "";
    var tail := if EndsBlank(y) then " " else "";
    var j := Join(Words(y), ' ');
    CollapseLead(z);
    CollapseWords(y);
    WordsSkipSpaces(pre, y);
    JoinWordsEnds(Words(y));
    Padded(lead, CollapseSpaces(y), j, tail, CollapseSpaces(z));
    SpaceOrEmpty(z != [] && IsSpace(z[0]));
    SpaceOrEmpty(EndsBlank(y));
    TrimUnique(lead, j, tail);
  }

  /** One space or nothing is all white space. */
  lemma SpaceOrEmpty(b: bool)
    ensures AllSpace(if b then " " else "")
  {
  }

  lemma Padded(lead: string, cy: string, j: string, tail: string, cz: string)
    requires cz == lead + cy && cy == j + tail
    ensures cz == lead + j + tail
  {
  }

  /** The words of a non-blank input are its maximal non-blank runs, each run also
      broken at every camelCase hump, and each capitalised. */
  lemma TitleWordsAreRuns(input: string)
    requires !AllSpace(input)
    ensures TitleWords(input) == CapitalizeAll(Words(HumpsFrom(input, 0)))
  {
    var ws := Words(SplitCamel(input));
    NormalizeIsWords(input);
    NormalizeNonBlank(input);
    SplitCamelIsHumps(input, 0);
    assert input[0..] == input;
    assert ws != [];
    forall w | w in ws ensures ' ' !in w {
      assert NoSpace(w) && IsSpace(' ');
    }
    SplitJoin(ws, ' ');
  }

  /** What `toPerfectTitleCase` promises: the result is empty exactly when the input
      is all white space. Otherwise it is the input's maximal runs of non-white-space
      characters, each run also broken between a lower-case letter and the upper-case
      letter after it, capitalised and joined by single spaces: every word is in
      title case, and every non-white-space character of the input is kept, in
      order, up to case. */
  lemma TitleCaseSpec(input: string)
    ensures ToPerfectTitleCase(input) == [] <==> AllSpace(input)
    ensures !AllSpace(input) ==>
      && ToPerfectTitleCase(input) == Join(CapitalizeAll(Words(HumpsFrom(input, 0))), ' ')
      && forall w :: w in TitleWords(input) ==> TitleWord(w)
    ensures Fold(ToPerfectTitleCase(input)) == Fold(input)
  {
    TitleCaseKeepsFold(input);
    TitleCaseEmptyIff(input);
    if !AllSpace(input) {
      NormalizeNonBlank(input);
      TitleWordsShape(input);
      TitleWordsAreRuns(input);
    }
  }
}
