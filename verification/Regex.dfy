/** The regular-expression matcher of lab1/user/find.c:9-43, against the language of its patterns. */
module Regex {

  /** A pattern item: one character, or any number of them; '.' stands for every character. */
  datatype Item = One(c: char) | Star(c: char)

  predicate Hit(c: char, x: char) { c == '.' || c == x }

  /** The items of a pattern without its leading '^' and its final, unstarred '$'. */
  function Items(re: string): seq<Item>
    decreases |re|
  {
    if re == "" then []
    else if |re| > 1 && re[1] == '*' then [Star(re[0])] + Items(re[2..])
    else if re == "$" then []
    else [One(re[0])] + Items(re[1..])
  }

  /** The pattern ends in a '$' that is not starred. */
  predicate Anchored(re: string)
    decreases |re|
  {
    if re == "" then false
    else if |re| > 1 && re[1] == '*' then Anchored(re[2..])
    else if re == "$" then true
    else Anchored(re[1..])
  }

  ghost predicate AllHit(c: char, s: string) { forall k :: 0 <= k < |s| ==> Hit(c, s[k]) }

  /** The strings a sequence of items stands for. */
  ghost predicate In(items: seq<Item>, s: string)
    decreases |items|
  {
    if items == [] then s == ""
    else if items[0].One? then s != "" && Hit(items[0].c, s[0]) && In(items[1..], s[1..])
    else exists k :: 0 <= k <= |s| && AllHit(items[0].c, s[..k]) && In(items[1..], s[k..])
  }

  /** Some prefix of the text, or all of it under '$', is in the language. */
  ghost predicate Here(re: string, text: string) {
    exists k :: 0 <= k <= |text| && In(Items(re), text[..k]) && (Anchored(re) ==> k == |text|)
  }

  /** Some substring is. */
  ghost predicate Somewhere(re: string, text: string) {
    exists i, k :: 0 <= i <= k <= |text| && In(Items(re), text[i..k]) && (Anchored(re) ==> k == |text|)
  }

  /** What `match` decides. */
  ghost predicate Matches(re: string, text: string) {
    if re != "" && re[0] == '^' then Here(re[1..], text) else Somewhere(re, text)
  }

  /** After some characters that `c` hits, the rest of the pattern matches. */
  ghost predicate AfterStar(c: char, re: string, text: string) {
    exists j :: 0 <= j <= |text| && AllHit(c, text[..j]) && Here(re, text[j..])
  }

  lemma HereEmpty(text: string)
    ensures Here("", text)
  {
    assert text[..0] == "";
    assert In(Items(""), text[..0]);
  }

  lemma HereEnd(text: string)
    ensures Here("$", text) <==> text == ""
  {
    if text == "" { assert text[..0] == "" && In(Items("$"), text[..0]); }
  }

  lemma HereOne(re: string, text: string)
    requires re != "" && !(|re| > 1 && re[1] == '*') && re != "$"
    ensures Here(re, text) <==> text != "" && Hit(re[0], text[0]) && Here(re[1..], text[1..])
  {
    assert Items(re)[0] == One(re[0]) && Items(re)[1..] == Items(re[1..]);
    if Here(re, text) {
      var k :| 0 <= k <= |text| && In(Items(re), text[..k]) && (Anchored(re) ==> k == |text|);
      assert text[..k][1..] == text[1..][..k - 1];
    }
    if text != "" && Hit(re[0], text[0]) && Here(re[1..], text[1..]) {
      var k :| 0 <= k <= |text[1..]| && In(Items(re[1..]), text[1..][..k]) && (Anchored(re[1..]) ==> k == |text[1..]|);
      assert text[..k + 1][1..] == text[1..][..k];
      assert In(Items(re), text[..k + 1]);
    }
  }

  lemma HereStar(re: string, text: string)
    requires |re| > 1 && re[1] == '*'
    ensures Here(re, text) <==> AfterStar(re[0], re[2..], text)
  {
    var rest := re[2..];
    assert Items(re)[0] == Star(re[0]) && Items(re)[1..] == Items(rest);
    if Here(re, text) {
      var k :| 0 <= k <= |text| && In(Items(re), text[..k]) && (Anchored(re) ==> k == |text|);
      var j :| 0 <= j <= k && AllHit(re[0], text[..k][..j]) && In(Items(rest), text[..k][j..]);
      assert text[..k][..j] == text[..j] && text[..k][j..] == text[j..][..k - j];
      assert Here(rest, text[j..]);
    }
    if AfterStar(re[0], rest, text) {
      var j :| 0 <= j <= |text| && AllHit(re[0], text[..j]) && Here(rest, text[j..]);
      var k :| 0 <= k <= |text[j..]| && In(Items(rest), text[j..][..k]) && (Anchored(rest) ==> k == |text[j..]|);
      assert text[..j + k][..j] == text[..j] && text[..j + k][j..] == text[j..][..k];
      assert In(Items(re), text[..j + k]);
    }
  }

  lemma StopsHere(c: char, text: string, t: nat, j: nat)
    requires t <= |text| && j <= |text| && !(t < |text| && Hit(c, text[t]))
    ensures AllHit(c, text[..j]) ==> j <= t
  {
    if t < |text| && j > t {
      assert text[..j][t] == text[t];
    }
  }

  /** `matchhere` (find.c:22-33). */
  method MatchHere(re: string, text: string) returns (r: bool)
    ensures r <==> Here(re, text)
    decreases |re|, 0
  {
    if re == "" {
      HereEmpty(text);
      return true;
    }
    if |re| > 1 && re[1] == '*' {
      HereStar(re, text);
      r := MatchStar(re[0], re[2..], text);
      return;
    }
    if re[0] == '$' && |re| == 1 {
      assert re == "$";
      HereEnd(text);
      return text == "";
    }
    HereOne(re, text);
    if text != "" && (re[0] == '.' || re[0] == text[0]) {
      r := MatchHere(re[1..], text[1..]);
      return;
    }
    return false;
  }

  /** `matchstar` (find.c:36-43). */
  method MatchStar(c: char, re: string, text: string) returns (r: bool)
    ensures r <==> AfterStar(c, re, text)
    decreases |re|, 1
  {
    hide Here;
    var t := 0;
    while true
      invariant 0 <= t <= |text| && AllHit(c, text[..t])
      invariant forall j :: 0 <= j < t ==> !Here(re, text[j..])
      decreases |text| - t
    {
      var m := MatchHere(re, text[t..]);
      if m {
        return true;
      }
      if !(t < |text| && (text[t] == c || c == '.')) {
        break;
      }
      t := t + 1;
    }
    forall j | 0 <= j <= |text| && AllHit(c, text[..j]) ensures j <= t {
      StopsHere(c, text, t, j);
    }
    return false;
  }

  lemma SomewhereIsHere(re: string, text: string)
    ensures Somewhere(re, text) <==> exists i :: 0 <= i <= |text| && Here(re, text[i..])
  {
    if Somewhere(re, text) {
      var i, k :| 0 <= i <= k <= |text| && In(Items(re), text[i..k]) && (Anchored(re) ==> k == |text|);
      assert text[i..][..k - i] == text[i..k];
      assert Here(re, text[i..]);
    }
    forall i | 0 <= i <= |text| && Here(re, text[i..]) ensures Somewhere(re, text) {
      var k :| 0 <= k <= |text[i..]| && In(Items(re), text[i..][..k]) && (Anchored(re) ==> k == |text[i..]|);
      assert text[i..][..k] == text[i..i + k];
    }
  }

  /** `match` (find.c:9-19). */
  method Match(re: string, text: string) returns (r: bool)
    ensures r <==> Matches(re, text)
  {
    if re != "" && re[0] == '^' {
      r := MatchHere(re[1..], text);
      return;
    }
    SomewhereIsHere(re, text);
    hide Here, Somewhere;
    var t := 0;
    while true
      invariant 0 <= t <= |text|
      invariant forall j :: 0 <= j < t ==> !Here(re, text[j..])
      decreases |text| - t
    {
      var m := MatchHere(re, text[t..]);
      if m {
        return true;
      }
      if t == |text| {
        break;
      }
      t := t + 1;
    }
    return false;
  }

  // ----- What some patterns come to ------------------------------------------------------------

  /** No character of the pattern has a meaning of its own. */
  predicate Literal(re: string) {
    forall i :: 0 <= i < |re| ==> re[i] != '.' && re[i] != '*' && re[i] != '^' && re[i] != '$'
  }

  lemma {:induction false} LiteralIn(re: string, s: string)
    requires Literal(re)
    ensures In(Items(re), s) <==> s == re
    ensures In(Items(re + "$"), s) <==> s == re
    ensures !Anchored(re) && Anchored(re + "$")
    decreases |re|
  {
    if re == "" {
      assert re + "$" == "$";
    } else {
      assert (re + "$")[1..] == re[1..] + "$" && (re + "$")[0] == re[0];
      assert |re| > 1 ==> (re + "$")[1] == re[1];
      assert Items(re) == [One(re[0])] + Items(re[1..]);
      assert Items(re + "$") == [One(re[0])] + Items(re[1..] + "$");
      LiteralIn(re[1..], if s == "" then s else s[1..]);
      if s != "" { assert s == [s[0]] + s[1..] && re == [re[0]] + re[1..]; }
    }
  }

  predicate Occurs(re: string, text: string, i: nat) { i + |re| <= |text| && text[i..i + |re|] == re }

  /** A pattern without special characters is searched for; `^` ties it to the beginning, `$` to the end. */
  lemma LiteralMatches(re: string, text: string)
    requires Literal(re)
    ensures Matches(re, text) <==> exists i: nat :: Occurs(re, text, i)
    ensures Matches("^" + re, text) <==> re <= text
    ensures Matches(re + "$", text) <==> |re| <= |text| && text[|text| - |re|..] == re
    ensures Matches("^" + re + "$", text) <==> text == re
  {
    LiteralIn(re, text);
    forall i, k | 0 <= i <= k <= |text|
      ensures In(Items(re), text[i..k]) <==> text[i..k] == re
      ensures In(Items(re + "$"), text[i..k]) <==> text[i..k] == re
    {
      LiteralIn(re, text[i..k]);
    }
    LiteralSomewhere(re, text);
    LiteralAtEnd(re, text);
    LiteralHere(re, text);
    assert ("^" + re)[1..] == re && ("^" + re + "$")[1..] == re + "$";
    assert re != "" ==> (re + "$")[0] == re[0];
    assert re == "" ==> re + "$" == "$";
  }

  lemma LiteralSomewhere(re: string, text: string)
    requires !Anchored(re) && Anchored(re + "$")
    requires forall i, k :: 0 <= i <= k <= |text| ==> (In(Items(re), text[i..k]) <==> text[i..k] == re)
    ensures Somewhere(re, text) <==> exists i: nat :: Occurs(re, text, i)
  {
    hide Items, In;
    if i: nat :| Occurs(re, text, i) {
      assert In(Items(re), text[i..i + |re|]);
    }
    if Somewhere(re, text) {
      var i, k :| 0 <= i <= k <= |text| && In(Items(re), text[i..k]);
      assert Occurs(re, text, i);
    }
  }

  lemma LiteralAtEnd(re: string, text: string)
    requires Anchored(re + "$")
    requires forall i, k :: 0 <= i <= k <= |text| ==> (In(Items(re + "$"), text[i..k]) <==> text[i..k] == re)
    ensures Somewhere(re + "$", text) <==> |re| <= |text| && text[|text| - |re|..] == re
  {
    hide Items, In, Anchored;
    if |re| <= |text| && text[|text| - |re|..] == re {
      assert text[|text| - |re|..|text|] == re && In(Items(re + "$"), text[|text| - |re|..|text|]);
    }
    if Somewhere(re + "$", text) {
      var i, k :| 0 <= i <= k <= |text| && In(Items(re + "$"), text[i..k]) && k == |text|;
      assert text[i..k] == text[i..];
    }
  }

  lemma LiteralHere(re: string, text: string)
    requires !Anchored(re) && Anchored(re + "$")
    requires forall i, k :: 0 <= i <= k <= |text| ==> (In(Items(re), text[i..k]) <==> text[i..k] == re)
    requires forall i, k :: 0 <= i <= k <= |text| ==> (In(Items(re + "$"), text[i..k]) <==> text[i..k] == re)
    ensures Here(re, text) <==> re <= text
    ensures Here(re + "$", text) <==> text == re
  {
    forall k | 0 <= k <= |text| ensures text[..k] == text[0..k] {
    }
    if re <= text { assert text[0..|re|] == re && In(Items(re), text[..|re|]); }
    if text == re { assert In(Items(re + "$"), text[..|text|]); }
    if Here(re + "$", text) { assert text[..|text|] == text; }
  }

  /** A starred character stands for every run of it and for nothing else, a starred '.' for every text. */
  lemma StarMatches(c: char, text: string)
    ensures Matches(['^', c, '*', '$'], text) <==> c == '.' || forall k :: 0 <= k < |text| ==> text[k] == c
  {
    var re := [c, '*', '$'];
    assert ['^', c, '*', '$'][1..] == re && re[2..] == "$";
    HereStar(re, text);
    forall j | 0 <= j <= |text| ensures Here("$", text[j..]) <==> j == |text| {
      HereEnd(text[j..]);
    }
    assert text[..|text|] == text;
    if AllHit(c, text) { assert AllHit(c, text[..|text|]) && Here("$", text[|text|..]); }
  }

  ghost predicate SplitAt(a: seq<Item>, b: seq<Item>, s: string, k: nat) {
    k <= |s| && In(a, s[..k]) && In(b, s[k..])
  }

  ghost predicate Split(a: seq<Item>, b: seq<Item>, s: string) { exists k: nat :: SplitAt(a, b, s, k) }

  /** A pattern read as two, one behind the other, stands for what the one and then the other stand for. */
  lemma {:induction false} InBoth(a: seq<Item>, b: seq<Item>, s: string)
    ensures In(a + b, s) <==> Split(a, b, s)
    decreases |a|
  {
    if a == [] {
      assert a + b == b && s[0..] == s;
      if In(b, s) { assert SplitAt(a, b, s, 0); }
    } else {
      assert (a + b)[0] == a[0] && (a + b)[1..] == a[1..] + b;
      if a[0].Star? {
        forall j: nat | j <= |s| ensures In(a[1..] + b, s[j..]) <==> Split(a[1..], b, s[j..]) {
          InBoth(a[1..], b, s[j..]);
        }
        BothStar(a, b, s);
        StarBoth(a, b, s);
      } else if s != "" {
        InBoth(a[1..], b, s[1..]);
        BothOne(a, b, s);
      }
    }
  }

  lemma BothOne(a: seq<Item>, b: seq<Item>, s: string)
    requires a != [] && a[0].One? && s != "" && (a + b)[0] == a[0] && (a + b)[1..] == a[1..] + b
    requires In(a[1..] + b, s[1..]) <==> Split(a[1..], b, s[1..])
    ensures In(a + b, s) <==> Split(a, b, s)
  {
    if In(a + b, s) {
      var k: nat :| SplitAt(a[1..], b, s[1..], k);
      assert s[..k + 1][1..] == s[1..][..k] && s[k + 1..] == s[1..][k..];
      assert SplitAt(a, b, s, k + 1);
    }
    if k: nat :| SplitAt(a, b, s, k) {
      assert s[..k][1..] == s[1..][..k - 1] && s[k..] == s[1..][k - 1..];
      assert SplitAt(a[1..], b, s[1..], k - 1);
    }
  }

  lemma StarIn(items: seq<Item>, s: string, j: nat)
    requires items != [] && items[0].Star? && j <= |s| && AllHit(items[0].c, s[..j]) && In(items[1..], s[j..])
    ensures In(items, s)
  {
  }

  lemma StarOut(items: seq<Item>, s: string) returns (j: nat)
    requires items != [] && items[0].Star? && In(items, s)
    ensures j <= |s| && AllHit(items[0].c, s[..j]) && In(items[1..], s[j..])
  {
    j :| j <= |s| && AllHit(items[0].c, s[..j]) && In(items[1..], s[j..]);
  }

  lemma BothStar(a: seq<Item>, b: seq<Item>, s: string)
    requires a != [] && a[0].Star? && (a + b)[0] == a[0] && (a + b)[1..] == a[1..] + b
    requires forall j: nat :: j <= |s| ==> (In(a[1..] + b, s[j..]) <==> Split(a[1..], b, s[j..]))
    ensures In(a + b, s) ==> Split(a, b, s)
  {
    hide In, AllHit;
    if In(a + b, s) {
      var j := StarOut(a + b, s);
      var k: nat :| SplitAt(a[1..], b, s[j..], k);
      assert s[..j + k][..j] == s[..j] && s[..j + k][j..] == s[j..][..k] && s[j + k..] == s[j..][k..];
      StarIn(a, s[..j + k], j);
      assert SplitAt(a, b, s, j + k);
    }
  }

  lemma StarBoth(a: seq<Item>, b: seq<Item>, s: string)
    requires a != [] && a[0].Star? && (a + b)[0] == a[0] && (a + b)[1..] == a[1..] + b
    requires forall j: nat :: j <= |s| ==> (In(a[1..] + b, s[j..]) <==> Split(a[1..], b, s[j..]))
    ensures Split(a, b, s) ==> In(a + b, s)
  {
    hide In, AllHit;
    if k: nat :| SplitAt(a, b, s, k) {
      var j := StarOut(a, s[..k]);
      assert s[..k][..j] == s[..j] && s[..k][j..] == s[j..][..k - j] && s[k..] == s[j..][k - j..];
      assert SplitAt(a[1..], b, s[j..], k - j);
      StarIn(a + b, s, j);
    }
  }
}
