/**
 * Name conversion and table merging of Source/make_guid_db_from_edk2_guids.py,
 * the build-time script that assembles the protocol GUID table.
 *
 * Python's str.upper, str.lower and str.isupper are modelled on ASCII letters;
 * every other character is left alone by the first two and is not upper case.
 */
module GuidDbGenerator {

  predicate IsUpper(c: char) { 'A' <= c <= 'Z' }
  predicate IsLower(c: char) { 'a' <= c <= 'z' }

  function Upper(c: char): (u: char)
    ensures !IsLower(u)
    ensures IsLower(c) ==> IsUpper(u)
    ensures !IsLower(c) ==> u == c
  {
    if IsLower(c) then (c as int - 32) as char else c
  }

  function Lower(c: char): (l: char)
    ensures !IsUpper(l)
    ensures IsUpper(c) ==> IsLower(l)
    ensures !IsUpper(c) ==> l == c
  {
    if IsUpper(c) then (c as int + 32) as char else c
  }

  lemma {:induction false} CaseRoundTrip(c: char)
    ensures IsUpper(c) ==> Upper(Lower(c)) == c
    ensures IsLower(c) ==> Lower(Upper(c)) == c
  {
  }

  function StartsWithG(s: string): bool { 0 < |s| && s[0] == 'g' }

  /** The loop of global_var_from_guid over the rest of the name: '_' is
      dropped and makes the next character upper case; every other character
      is upper-cased if `nextCapital`, lower-cased if not. */
  function CamelTail(s: string, nextCapital: bool): (r: string)
    ensures |r| == |RemoveUnderscores(s)|
    ensures forall i :: 0 <= i < |r| ==> r[i] != '_'
  {
    if s == [] then []
    else if s[0] == '_' then CamelTail(s[1..], true)
    else (if nextCapital then [Upper(s[0])] else [Lower(s[0])]) + CamelTail(s[1..], false)
  }

  /** global_var_from_guid: ACOUSTIC_SETUP_PROTOCOL_GUID → gAcousticSetupProtocolGuid.
      A name already starting with 'g' is returned as it is. */
  function GlobalVarFromGuid(guidName: string): (r: string)
    ensures StartsWithG(r)
    ensures !StartsWithG(guidName) ==>
      |r| == 1 + |RemoveUnderscores(guidName)| && forall i :: 1 <= i < |r| ==> r[i] != '_'
  {
    if StartsWithG(guidName) then guidName else "g" + CamelTail(guidName, true)
  }

  /** The loop of guid_from_global_var after the leading 'g': every upper-case
      character is preceded by '_', and everything is upper-cased. */
  function SnakeTail(s: string): (r: string)
    ensures |s| <= |r| <= 2 * |s|
  {
    if s == [] then []
    else (if IsUpper(s[0]) then ['_', Upper(s[0])] else [Upper(s[0])]) + SnakeTail(s[1..])
  }

  /** str.lstrip('_') */
  function StripLeadingUnderscores(s: string): (r: string)
    ensures |r| <= |s| && r == s[|s| - |r|..]
    ensures r == [] || r[0] != '_'
    ensures forall i :: 0 <= i < |s| - |r| ==> s[i] == '_'
  {
    if 0 < |s| && s[0] == '_' then StripLeadingUnderscores(s[1..]) else s
  }

  /** guid_from_global_var: gAcousticSetupProtocolGuid → ACOUSTIC_SETUP_PROTOCOL_GUID.
      A name that does not start with 'g' is returned as it is. */
  function GuidFromGlobalVar(v: string): (r: string)
    ensures !StartsWithG(v) ==> r == v
    ensures StartsWithG(v) ==> (r == [] || r[0] != '_') && |r| <= 2 * (|v| - 1)
  {
    if !StartsWithG(v) then v else StripLeadingUnderscores(SnakeTail(v[1..]))
  }

  // ---------------------------------------------------------------------------
  // Reference definitions

  function RemoveUnderscores(s: string): (r: string)
    ensures forall i :: 0 <= i < |r| ==> r[i] != '_'
    ensures |r| <= |s|
  {
    if s == [] then [] else if s[0] == '_' then RemoveUnderscores(s[1..]) else [s[0]] + RemoveUnderscores(s[1..])
  }

  function LowerAll(s: string): (r: string)
    ensures |r| == |s| && forall i :: 0 <= i < |s| ==> r[i] == Lower(s[i])
  {
    if s == [] then [] else [Lower(s[0])] + LowerAll(s[1..])
  }

  function UpperAll(s: string): (r: string)
    ensures |r| == |s| && forall i :: 0 <= i < |s| ==> r[i] == Upper(s[i])
  {
    if s == [] then [] else [Upper(s[0])] + UpperAll(s[1..])
  }

  /** A word: its first character upper case, the rest lower case. */
  function Capitalize(w: string): string
  {
    if w == [] then [] else [Upper(w[0])] + LowerAll(w[1..])
  }

  /** Words joined by single underscores. */
  function JoinSnake(words: seq<string>): string
    requires 0 < |words|
  {
    if |words| == 1 then words[0] else words[0] + ['_'] + JoinSnake(words[1..])
  }

  function ConcatCapitalized(words: seq<string>): string
  {
    if words == [] then [] else Capitalize(words[0]) + ConcatCapitalized(words[1..])
  }

  function Concat(words: seq<string>): string
  {
    if words == [] then [] else words[0] + Concat(words[1..])
  }

  function UpperWords(words: seq<string>): (r: seq<string>)
    ensures |r| == |words| && forall i :: 0 <= i < |words| ==> r[i] == UpperAll(words[i])
  {
    if words == [] then [] else [UpperAll(words[0])] + UpperWords(words[1..])
  }

  /** A segment of an upper-snake name such as ACOUSTIC or GUID: it starts with
      a letter and holds no '_' and no lower-case letter. */
  predicate SnakeWord(w: string)
  {
    0 < |w| && IsUpper(w[0]) && forall i :: 0 <= i < |w| ==> w[i] != '_' && !IsLower(w[i])
  }

  /** A word of a camel-case variable such as Acoustic or Guid: an upper-case
      letter followed by characters that are neither '_' nor upper case. */
  predicate CamelWord(w: string)
  {
    0 < |w| && IsUpper(w[0]) && forall i :: 1 <= i < |w| ==> w[i] != '_' && !IsUpper(w[i])
  }

  // ---------------------------------------------------------------------------
  // global_var_from_guid

  lemma {:induction false} CamelTailRemovesUnderscores(s: string, b: bool)
    ensures LowerAll(CamelTail(s, b)) == LowerAll(RemoveUnderscores(s))
  {
    if s != [] {
      CamelTailRemovesUnderscores(s[1..], s[0] == '_' || false);
      if s[0] != '_' {
        CamelTailRemovesUnderscores(s[1..], false);
        assert LowerAll(CamelTail(s, b)) == [Lower(s[0])] + LowerAll(CamelTail(s[1..], false));
      } else {
        CamelTailRemovesUnderscores(s[1..], true);
      }
    }
  }

  /** Except for a name that already starts with 'g', global_var_from_guid
      gives 'g' followed by the name with every '_' removed (up to letter case). */
  lemma {:induction false} GlobalVarFromGuidDropsUnderscores(guidName: string)
    ensures StartsWithG(guidName) ==> GlobalVarFromGuid(guidName) == guidName
    ensures !StartsWithG(guidName) ==>
      var r := GlobalVarFromGuid(guidName);
      0 < |r| && r[0] == 'g' && LowerAll(r[1..]) == LowerAll(RemoveUnderscores(guidName))
  {
    if !StartsWithG(guidName) {
      var r := GlobalVarFromGuid(guidName);
      assert r[1..] == CamelTail(guidName, true);
      CamelTailRemovesUnderscores(guidName, true);
    }
  }

  lemma {:induction false} CamelTailLowersWord(u: string, t: string)
    requires forall i :: 0 <= i < |u| ==> u[i] != '_'
    ensures CamelTail(u + t, false) == LowerAll(u) + CamelTail(t, false)
  {
    if u != [] {
      assert (u + t)[1..] == u[1..] + t;
      CamelTailLowersWord(u[1..], t);
    } else {
      assert u + t == t;
    }
  }

  lemma {:induction false} CamelTailWord(w: string, t: string)
    requires 0 < |w| && forall i :: 0 <= i < |w| ==> w[i] != '_'
    ensures CamelTail(w + t, true) == Capitalize(w) + CamelTail(t, false)
  {
    assert (w + t)[1..] == w[1..] + t;
    CamelTailLowersWord(w[1..], t);
  }

  predicate NoUnderscore(w: string)
  {
    forall i :: 0 <= i < |w| ==> w[i] != '_'
  }

  /** str.split('_'): the maximal '_'-free pieces, possibly empty. */
  function SplitOnUnderscores(s: string): (words: seq<string>)
    ensures 0 < |words|
  {
    if s == [] then [[]]
    else
      var rest := SplitOnUnderscores(s[1..]);
      if s[0] == '_' then [[]] + rest else [[s[0]] + rest[0]] + rest[1..]
  }

  lemma {:induction false} JoinSplit(s: string)
    ensures JoinSnake(SplitOnUnderscores(s)) == s
    ensures forall k :: 0 <= k < |SplitOnUnderscores(s)| ==> NoUnderscore(SplitOnUnderscores(s)[k])
  {
    if s != [] {
      var rest := SplitOnUnderscores(s[1..]);
      JoinSplit(s[1..]);
      if s[0] == '_' {
        assert SplitOnUnderscores(s)[1..] == rest;
      } else {
        var words := SplitOnUnderscores(s);
        assert words[1..] == rest[1..];
        if |rest| == 1 {
          assert JoinSnake(rest) == rest[0];
        } else {
          assert JoinSnake(rest) == rest[0] + ['_'] + JoinSnake(rest[1..]);
        }
        forall k | 0 <= k < |words| ensures NoUnderscore(words[k]) {
          if k > 0 {
            assert words[k] == rest[k];
          }
        }
      }
    }
  }

  /** Each '_'-separated word comes out capitalized: the first character
      and each one after an '_' upper case, all others lower case. */
  lemma {:induction false} CamelTailOfJoin(words: seq<string>)
    requires 0 < |words| && forall k :: 0 <= k < |words| ==> NoUnderscore(words[k])
    ensures CamelTail(JoinSnake(words), true) == ConcatCapitalized(words)
  {
    var w := words[0];
    if |words| == 1 {
      if w != [] {
        CamelTailWord(w, []);
        assert w + [] == w;
      }
    } else {
      var rest := JoinSnake(words[1..]);
      assert JoinSnake(words) == w + (['_'] + rest);
      assert (['_'] + rest)[1..] == rest;
      if w != [] {
        CamelTailWord(w, ['_'] + rest);
      } else {
        assert w + (['_'] + rest) == ['_'] + rest;
      }
      assert forall k :: 0 <= k < |words[1..]| ==> NoUnderscore(words[1..][k]) by {
        forall k | 0 <= k < |words[1..]| ensures NoUnderscore(words[1..][k]) {
          assert words[1..][k] == words[k + 1];
        }
      }
      CamelTailOfJoin(words[1..]);
    }
  }

  /** global_var_from_guid on a name not starting with 'g' is 'g' followed by
      each '_'-separated piece capitalized: upper case for the first
      character of the name and for each one after an '_', lower case for
      the rest, and the underscores gone. */
  lemma {:induction false} GlobalVarFromGuidCapitalizesPieces(guidName: string)
    requires !StartsWithG(guidName)
    ensures GlobalVarFromGuid(guidName) == "g" + ConcatCapitalized(SplitOnUnderscores(guidName))
  {
    JoinSplit(guidName);
    CamelTailOfJoin(SplitOnUnderscores(guidName));
  }

  lemma {:induction false} GlobalVarFromGuidOfJoin(words: seq<string>)
    requires 0 < |words| && forall k :: 0 <= k < |words| ==> SnakeWord(words[k])
    ensures GlobalVarFromGuid(JoinSnake(words)) == "g" + ConcatCapitalized(words)
  {
    JoinSnakeStart(words);
    CamelTailOfJoin(words);
  }

  lemma {:induction false} JoinSnakeStart(words: seq<string>)
    requires 0 < |words| && 0 < |words[0]|
    ensures 0 < |JoinSnake(words)| && JoinSnake(words)[0] == words[0][0]
  {
    if |words| > 1 {
      assert JoinSnake(words) == words[0] + ['_'] + JoinSnake(words[1..]);
    }
  }

  // ---------------------------------------------------------------------------
  // guid_from_global_var

  lemma {:induction false} SnakeTailAppend(x: string, y: string)
    ensures SnakeTail(x + y) == SnakeTail(x) + SnakeTail(y)
  {
    if x == [] {
      assert x + y == y;
    } else {
      assert (x + y)[1..] == x[1..] + y;
      SnakeTailAppend(x[1..], y);
    }
  }

  lemma {:induction false} SnakeTailRemovesUnderscores(s: string)
    ensures RemoveUnderscores(SnakeTail(s)) == RemoveUnderscores(UpperAll(s))
  {
    if s != [] {
      SnakeTailRemovesUnderscores(s[1..]);
      var head: string := if IsUpper(s[0]) then ['_', Upper(s[0])] else [Upper(s[0])];
      RemoveUnderscoresAppend(head, SnakeTail(s[1..]));
      RemoveUnderscoresAppend([Upper(s[0])], UpperAll(s[1..]));
      assert UpperAll(s) == [Upper(s[0])] + UpperAll(s[1..]);
    }
  }

  lemma {:induction false} RemoveUnderscoresAppend(x: string, y: string)
    ensures RemoveUnderscores(x + y) == RemoveUnderscores(x) + RemoveUnderscores(y)
  {
    if x == [] {
      assert x + y == y;
    } else {
      assert (x + y)[1..] == x[1..] + y;
      RemoveUnderscoresAppend(x[1..], y);
    }
  }

  lemma {:induction false} StripKeepsLetters(s: string)
    ensures RemoveUnderscores(StripLeadingUnderscores(s)) == RemoveUnderscores(s)
    ensures var r := StripLeadingUnderscores(s); r == [] || r[0] != '_'
  {
    if 0 < |s| && s[0] == '_' {
      StripKeepsLetters(s[1..]);
    }
  }

  /** Except for a name that does not start with 'g', guid_from_global_var
      drops the 'g', upper-cases the rest and only inserts underscores: with
      them removed, the result is the upper-cased tail without its own
      underscores. Leading underscores are stripped. */
  lemma {:induction false} GuidFromGlobalVarInsertsUnderscores(v: string)
    ensures !StartsWithG(v) ==> GuidFromGlobalVar(v) == v
    ensures StartsWithG(v) ==>
      var r := GuidFromGlobalVar(v);
      (r == [] || r[0] != '_') &&
      (forall i :: 0 <= i < |r| ==> !IsLower(r[i])) &&
      RemoveUnderscores(r) == RemoveUnderscores(UpperAll(v[1..]))
  {
    if StartsWithG(v) {
      SnakeTailRemovesUnderscores(v[1..]);
      StripKeepsLetters(SnakeTail(v[1..]));
      SnakeTailNotLower(v[1..]);
      StripIsSuffix(SnakeTail(v[1..]));
    }
  }

  lemma {:induction false} SnakeTailNotLower(s: string)
    ensures forall i :: 0 <= i < |SnakeTail(s)| ==> !IsLower(SnakeTail(s)[i])
  {
    if s != [] {
      SnakeTailNotLower(s[1..]);
    }
  }

  lemma {:induction false} StripIsSuffix(s: string)
    ensures var r := StripLeadingUnderscores(s); |r| <= |s| && r == s[|s| - |r|..]
  {
    if 0 < |s| && s[0] == '_' {
      StripIsSuffix(s[1..]);
    }
  }

  lemma {:induction false} SnakeTailOfLower(u: string)
    requires forall i :: 0 <= i < |u| ==> !IsUpper(u[i])
    ensures SnakeTail(u) == UpperAll(u)
  {
    if u != [] {
      SnakeTailOfLower(u[1..]);
    }
  }

  lemma {:induction false} UpperAllOfLowerAll(s: string)
    ensures UpperAll(LowerAll(s)) == UpperAll(s)
  {
    var l := LowerAll(s);
    assert forall i :: 0 <= i < |s| ==> UpperAll(l)[i] == Upper(Lower(s[i])) == Upper(s[i]);
  }

  lemma {:induction false} SnakeTailOfUpperChar(x: char)
    requires IsUpper(x)
    ensures SnakeTail([x]) == ['_', x]
  {
    assert [x][1..] == [];
  }

  lemma CapitalizeOfUpperHead(w: string)
    requires 0 < |w| && IsUpper(w[0])
    ensures Capitalize(w) == [w[0]] + LowerAll(w[1..])
  {
    assert Upper(w[0]) == w[0];
  }

  lemma UpperAllOfUpperHead(w: string)
    requires 0 < |w| && IsUpper(w[0])
    ensures UpperAll(w) == [w[0]] + UpperAll(w[1..])
  {
    assert Upper(w[0]) == w[0];
  }

  lemma LowerAllNotUpper(s: string)
    ensures forall i :: 0 <= i < |LowerAll(s)| ==> !IsUpper(LowerAll(s)[i])
  {
    forall i | 0 <= i < |LowerAll(s)|
      ensures !IsUpper(LowerAll(s)[i])
    {
      assert LowerAll(s)[i] == Lower(s[i]);
    }
  }

  /** A capitalized word becomes '_' followed by the word upper-cased. */
  lemma {:induction false} SnakeTailOfCapitalized(w: string)
    requires 0 < |w| && IsUpper(w[0])
    ensures SnakeTail(Capitalize(w)) == ['_'] + UpperAll(w)
  {
    var c, rest := w[0], w[1..];
    var tail := LowerAll(rest);
    CapitalizeOfUpperHead(w);
    SnakeTailAppend([c], tail);
    SnakeTailOfUpperChar(c);
    LowerAllNotUpper(rest);
    SnakeTailOfLower(tail);
    UpperAllOfLowerAll(rest);
    UpperAllOfUpperHead(w);
    PairRegroups('_', c, UpperAll(rest));
  }

  lemma {:induction false} SnakeTailOfConcatCapitalizedHead(words: seq<string>)
    requires 0 < |words| && SnakeWord(words[0])
    ensures SnakeTail(ConcatCapitalized(words)) == ['_'] + words[0] + SnakeTail(ConcatCapitalized(words[1..]))
  {
    var w := words[0];
    var a, b := Capitalize(w), ConcatCapitalized(words[1..]);
    SnakeTailAppend(a, b);
    SnakeTailOfCapitalized(w);
    UpperAllOfSnakeWord(w);
  }

  lemma {:induction false} SnakeTailOfConcatCapitalized(words: seq<string>)
    requires 0 < |words| && forall k :: 0 <= k < |words| ==> SnakeWord(words[k])
    ensures SnakeTail(ConcatCapitalized(words)) == ['_'] + JoinSnake(words)
  {
    var w, rest := words[0], words[1..];
    SnakeTailOfConcatCapitalizedHead(words);
    if |words| == 1 {
      assert ConcatCapitalized(rest) == [];
      assert SnakeTail(ConcatCapitalized(rest)) == [];
      assert ['_'] + w + [] == ['_'] + w;
    } else {
      SnakeWordsTail(words);
      SnakeTailOfConcatCapitalized(rest);
      var j := JoinSnake(rest);
      assert JoinSnake(words) == w + ['_'] + j;
      Regroup(['_'], w, ['_'], j);
    }
  }

  /** Regrouping of a four-part concatenation. */
  lemma Regroup(a: string, b: string, c: string, d: string)
    ensures a + b + (c + d) == a + (b + c + d)
  {
  }

  lemma {:induction false} SnakeWordsTail(words: seq<string>)
    requires 0 < |words| && forall k :: 0 <= k < |words| ==> SnakeWord(words[k])
    ensures forall k :: 0 <= k < |words[1..]| ==> SnakeWord(words[1..][k])
  {
    forall k | 0 <= k < |words[1..]| ensures SnakeWord(words[1..][k]) {
      assert words[1..][k] == words[k + 1];
    }
  }

  lemma {:induction false} UpperAllOfSnakeWord(w: string)
    requires SnakeWord(w)
    ensures UpperAll(w) == w
  {
    assert forall i :: 0 <= i < |w| ==> UpperAll(w)[i] == Upper(w[i]) == w[i];
  }

  /** The round trip of the script's own example, ACOUSTIC_SETUP_PROTOCOL_GUID
      ↔ gAcousticSetupProtocolGuid, for every upper-snake name whose
      '_'-separated segments are non-empty and begin with a letter. */
  lemma {:induction false} SnakeRoundTrip(words: seq<string>)
    requires 0 < |words| && forall k :: 0 <= k < |words| ==> SnakeWord(words[k])
    ensures GuidFromGlobalVar(GlobalVarFromGuid(JoinSnake(words))) == JoinSnake(words)
  {
    GlobalVarFromGuidOfJoin(words);
    var v := "g" + ConcatCapitalized(words);
    assert v[1..] == ConcatCapitalized(words);
    SnakeTailOfConcatCapitalized(words);
    JoinSnakeStart(words);
    StripOneUnderscore(JoinSnake(words));
  }

  lemma StripOneUnderscore(j: string)
    requires 0 < |j| && j[0] != '_'
    ensures StripLeadingUnderscores(['_'] + j) == j
  {
    assert (['_'] + j)[1..] == j;
  }

  lemma {:induction false} SnakeTailOfConcatCamel(words: seq<string>)
    requires 0 < |words| && forall k :: 0 <= k < |words| ==> CamelWord(words[k])
    ensures SnakeTail(Concat(words)) == ['_'] + JoinSnake(UpperWords(words))
  {
    var w := words[0];
    SnakeTailAppend(w, Concat(words[1..]));
    SnakeTailOfCamelWord(w);
    if |words| == 1 {
      assert Concat(words[1..]) == [];
      assert SnakeTail(Concat(words)) == SnakeTail(w);
    } else {
      SnakeTailOfConcatCamel(words[1..]);
      assert UpperWords(words)[1..] == UpperWords(words[1..]);
      var j := JoinSnake(UpperWords(words[1..]));
      assert JoinSnake(UpperWords(words)) == UpperAll(w) + ['_'] + j;
      Regroup(['_'], UpperAll(w), ['_'], j);
    }
  }

  /** A camel-case word becomes '_' followed by the word upper-cased. */
  lemma {:induction false} SnakeTailOfCamelWord(w: string)
    requires CamelWord(w)
    ensures SnakeTail(w) == ['_'] + UpperAll(w)
  {
    var rest := w[1..];
    CamelTailIsLower(w);
    SnakeTailOfLower(rest);
    var u := Upper(w[0]);
    assert SnakeTail(w) == ['_', u] + SnakeTail(rest);
    assert UpperAll(w) == [u] + UpperAll(rest);
    PairRegroups('_', u, UpperAll(rest));
  }

  lemma CamelTailIsLower(w: string)
    requires CamelWord(w)
    ensures forall i :: 0 <= i < |w[1..]| ==> !IsUpper(w[1..][i])
  {
    forall i | 0 <= i < |w[1..]|
      ensures !IsUpper(w[1..][i])
    {
      assert w[1..][i] == w[i + 1];
    }
  }

  /** Regrouping of two leading characters. */
  lemma PairRegroups(a: char, b: char, t: string)
    ensures [a, b] + t == [a] + ([b] + t)
  {
  }

  lemma {:induction false} CapitalizeUpperAll(w: string)
    requires CamelWord(w)
    ensures Capitalize(UpperAll(w)) == w
  {
    var u := UpperAll(w);
    var l := LowerAll(u[1..]);
    forall i | 0 <= i < |l|
      ensures l[i] == w[i + 1]
    {
      var c := w[i + 1];
      assert !IsUpper(c);
      assert u[1..][i] == u[i + 1] == Upper(c);
      LowerOfUpper(c);
    }
    assert l == w[1..];
    assert Upper(w[0]) == w[0];
    assert Capitalize(u) == [w[0]] + w[1..];
    assert [w[0]] + w[1..] == w;
  }

  lemma LowerOfUpper(c: char)
    requires !IsUpper(c)
    ensures Lower(Upper(c)) == c
  {
    if IsLower(c) {
      CaseRoundTrip(c);
    }
  }

  lemma {:induction false} ConcatCapitalizedUpperWords(words: seq<string>)
    requires forall k :: 0 <= k < |words| ==> CamelWord(words[k])
    ensures ConcatCapitalized(UpperWords(words)) == Concat(words)
  {
    if words != [] {
      CapitalizeUpperAll(words[0]);
      assert UpperWords(words)[1..] == UpperWords(words[1..]);
      ConcatCapitalizedUpperWords(words[1..]);
    }
  }

  /** The opposite round trip: every variable 'g' + camel-case words is
      recovered from the name it is converted to. */
  lemma {:induction false} CamelRoundTrip(words: seq<string>)
    requires 0 < |words| && forall k :: 0 <= k < |words| ==> CamelWord(words[k])
    ensures GlobalVarFromGuid(GuidFromGlobalVar("g" + Concat(words))) == "g" + Concat(words)
  {
    var v := "g" + Concat(words);
    assert v[1..] == Concat(words);
    SnakeTailOfConcatCamel(words);
    var upper := UpperWords(words);
    forall k | 0 <= k < |upper| ensures SnakeWord(upper[k]) {
      assert upper[k] == UpperAll(words[k]);
      assert CamelWord(words[k]);
    }
    JoinSnakeStart(upper);
    StripOneUnderscore(JoinSnake(upper));
    assert GuidFromGlobalVar(v) == JoinSnake(upper);
    GlobalVarFromGuidOfJoin(upper);
    ConcatCapitalizedUpperWords(words);
  }

  // ---------------------------------------------------------------------------
  // add_guids

  /** The value of a Python dict from GUID names to GUID values: its keys in
      insertion order, and the mapping. */
  datatype GuidDict<V> = GuidDict(order: seq<string>, entries: map<string, V>)

  ghost predicate WellFormed<V>(d: GuidDict<V>)
  {
    (forall i, j :: 0 <= i < j < |d.order| ==> d.order[i] != d.order[j]) &&
    (forall k :: k in d.entries <==> k in d.order)
  }

  /** No two names carry the same GUID value. */
  ghost predicate ValuesDistinct<V>(entries: map<string, V>)
  {
    forall k1, k2 :: k1 in entries && k2 in entries && k1 != k2 ==> entries[k1] != entries[k2]
  }

  /** One iteration of add_guids: the converted key is stored only when neither
      it nor the value is present yet. */
  function AddEntry<V(==)>(d: GuidDict<V>, guidKey: string, guidValue: V): GuidDict<V>
  {
    if guidKey !in d.entries && guidValue !in d.entries.Values
    then GuidDict(d.order + [guidKey], d.entries[guidKey := guidValue])
    else d
  }

  /** All iterations of add_guids over `guids`, in the source dict's order. */
  function AddAll<V(==)>(d: GuidDict<V>, guids: seq<(string, V)>): GuidDict<V>
    decreases |guids|
  {
    if guids == [] then d
    else AddAll(AddEntry(d, GuidFromGlobalVar(guids[0].0), guids[0].1), guids[1..])
  }

  /** The dict add_guids mutates. */
  class GuidDictionary<V(==)> {
    var order: seq<string>
    var entries: map<string, V>

    constructor ()
      ensures order == [] && entries == map[]
    {
      order := [];
      entries := map[];
    }

    function Value(): GuidDict<V>
      reads this
    {
      GuidDict(order, entries)
    }
  }

  /** add_guids: merges `guids` into `addTo` in place and returns `addTo`. */
  method AddGuids<V(==)>(addTo: GuidDictionary<V>, guids: seq<(string, V)>) returns (result: GuidDictionary<V>)
    modifies addTo
    ensures result == addTo
    ensures addTo.Value() == AddAll(old(addTo.Value()), guids)
  {
    var i := 0;
    while i < |guids|
      invariant i <= |guids|
      invariant AddAll(addTo.Value(), guids[i..]) == AddAll(old(addTo.Value()), guids)
    {
      var guidKey := GuidFromGlobalVar(guids[i].0);
      var guidValue := guids[i].1;
      assert guids[i..][1..] == guids[i + 1..];
      if guidKey !in addTo.entries && guidValue !in addTo.entries.Values {
        addTo.order := addTo.order + [guidKey];
        addTo.entries := addTo.entries[guidKey := guidValue];
      }
      i := i + 1;
    }
    assert guids[i..] == [];
    return addTo;
  }

  /** add_guids never overwrites nor removes an entry, and only appends keys. */
  lemma {:induction false} AddAllKeepsExisting<V>(d: GuidDict<V>, guids: seq<(string, V)>)
    ensures var r := AddAll(d, guids);
      (forall k :: k in d.entries ==> k in r.entries && r.entries[k] == d.entries[k]) &&
      |d.order| <= |r.order| && r.order[..|d.order|] == d.order
    decreases |guids|
  {
    if guids != [] {
      var d' := AddEntry(d, GuidFromGlobalVar(guids[0].0), guids[0].1);
      AddAllKeepsExisting(d', guids[1..]);
      assert d'.order[..|d.order|] == d.order;
    }
  }

  /** Well-formedness of the dict and distinctness of its values survive. */
  lemma {:induction false} AddAllKeepsValuesDistinct<V>(d: GuidDict<V>, guids: seq<(string, V)>)
    requires WellFormed(d) && ValuesDistinct(d.entries)
    ensures WellFormed(AddAll(d, guids)) && ValuesDistinct(AddAll(d, guids).entries)
    decreases |guids|
  {
    if guids != [] {
      var key, value := GuidFromGlobalVar(guids[0].0), guids[0].1;
      var d' := AddEntry(d, key, value);
      if key !in d.entries && value !in d.entries.Values {
        forall k1, k2 | k1 in d'.entries && k2 in d'.entries && k1 != k2
          ensures d'.entries[k1] != d'.entries[k2]
        {
          if k1 == key {
            assert d.entries[k2] in d.entries.Values;
          } else if k2 == key {
            assert d.entries[k1] in d.entries.Values;
          }
        }
        assert key !in d.order;
      }
      AddAllKeepsValuesDistinct(d', guids[1..]);
    }
  }

  /** Every entry add_guids adds is guid_from_global_var of one of the source
      keys, mapped to that key's value. */
  lemma {:induction false} AddAllOrigin<V>(d: GuidDict<V>, guids: seq<(string, V)>, k: string)
    requires k in AddAll(d, guids).entries && k !in d.entries
    ensures exists i :: 0 <= i < |guids| && GuidFromGlobalVar(guids[i].0) == k &&
                        AddAll(d, guids).entries[k] == guids[i].1
    decreases |guids|
  {
    var key, value := GuidFromGlobalVar(guids[0].0), guids[0].1;
    var d' := AddEntry(d, key, value);
    if k in d'.entries {
      AddAllKeepsExisting(d', guids[1..]);
      assert GuidFromGlobalVar(guids[0].0) == k;
    } else {
      AddAllOrigin(d', guids[1..], k);
      var i :| 0 <= i < |guids[1..]| && GuidFromGlobalVar(guids[1..][i].0) == k &&
               AddAll(d', guids[1..]).entries[k] == guids[1..][i].1;
      assert guids[1..][i] == guids[i + 1];
    }
  }

  /** Conversely, for every source entry the merged dict holds its converted
      key and its value: either it was added, or the key or the value was
      there already. */
  lemma {:induction false} AddAllCovers<V>(d: GuidDict<V>, guids: seq<(string, V)>, i: nat)
    requires i < |guids|
    ensures GuidFromGlobalVar(guids[i].0) in AddAll(d, guids).entries ||
            guids[i].1 in AddAll(d, guids).entries.Values
    decreases |guids|
  {
    var d' := AddEntry(d, GuidFromGlobalVar(guids[0].0), guids[0].1);
    assert AddAll(d, guids) == AddAll(d', guids[1..]);
    if i == 0 {
      AddAllCoversFirst(d, guids);
    } else {
      AddAllCovers(d', guids[1..], i - 1);
      assert guids[1..][i - 1] == guids[i];
    }
  }

  /** The first source entry's key or value is in the merged dict. */
  lemma AddAllCoversFirst<V>(d: GuidDict<V>, guids: seq<(string, V)>)
    requires guids != []
    ensures GuidFromGlobalVar(guids[0].0) in AddAll(d, guids).entries ||
            guids[0].1 in AddAll(d, guids).entries.Values
  {
    var key, value := GuidFromGlobalVar(guids[0].0), guids[0].1;
    var d' := AddEntry(d, key, value);
    AddAllKeepsExisting(d', guids[1..]);
    if key in d'.entries {
      assert key in AddAll(d', guids[1..]).entries;
    } else {
      var k0 :| k0 in d.entries && d.entries[k0] == value;
      assert AddAll(d', guids[1..]).entries[k0] == value;
    }
  }
}
