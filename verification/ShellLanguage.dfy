/** Which inputs the parser of lab1/user/sh.c accepts, and what their trees say, told without its grammar: by
    one scan from left to right. */
module ShellLanguage {

  import opened ShellGrammar
  import opened ShellParser

  /** Where the scan stands: before a command, inside one, behind a parenthesis, behind an ampersand. */
  datatype Place = Start | Inside | Closed | Amp

  const REDIRS: set<char> := {'<', '>', '+'}

  /** Words and redirections make a command, of at most nine words; every redirection has its file; a parenthesis
      opens only where a command begins, and each is closed; behind a closed one come redirections only; and
      behind `&` comes another, `;`, a closing parenthesis or the end. */
  predicate Accepts(ts: seq<Tok>, depth: nat, at: Place, words: nat)
    decreases |ts|
  {
    if ts == [] then depth == 0
    else match ts[0]
      case Word(_) => (at.Start? || at.Inside?) && words < 9 && Accepts(ts[1..], depth, Inside, words + 1)
      case Sym(c) =>
        if c in REDIRS then
          !at.Amp? && |ts| > 1 && ts[1].Word? && Accepts(ts[2..], depth, if at.Start? then Inside else at, words)
        else if c == '(' then at.Start? && Accepts(ts[1..], depth + 1, Start, 0)
        else Goes(ts, depth, !at.Amp?)
  }

  /** What may follow a command: the end, `)`, `&`, `;`, and, unless an `&` came before, `|`. */
  predicate Goes(ts: seq<Tok>, depth: nat, pipe: bool)
    decreases |ts|, 0
  {
    if ts == [] then depth == 0
    else match ts[0]
      case Word(_) => false
      case Sym(c) =>
        if c == ')' then depth > 0 && Accepts(ts[1..], depth - 1, Closed, 0)
        else if c == '|' then pipe && Accepts(ts[1..], depth, Start, 0)
        else if c == '&' then Accepts(ts[1..], depth, Amp, 0)
        else c == ';' && Accepts(ts[1..], depth, Start, 0)
  }

  /** Behind a whole line comes the end or the parenthesis that closes it. */
  predicate Ends(ts: seq<Tok>, depth: nat) {
    if ts == [] then depth == 0 else ts[0] == Sym(')') && depth > 0 && Accepts(ts[1..], depth - 1, Closed, 0)
  }

  lemma {:induction false} RedirsAccepted(ts: seq<Tok>, depth: nat, at: Place, words: nat)
    requires at.Inside? || at.Closed?
    ensures match ParseRedirs(ts)
      case Files(_, rest) => Accepts(ts, depth, at, words) == Accepts(rest, depth, at, words) && !Starts(rest, REDIRS)
      case NoFile => !Accepts(ts, depth, at, words)
    decreases |ts|
  {
    if Starts(ts, REDIRS) && |ts| > 1 && ts[1].Word? {
      RedirsAccepted(ts[2..], depth, at, words);
    }
  }

  lemma {:induction false} WordsAccepted(args: seq<string>, rs: seq<Target<string>>, ts: seq<Tok>, depth: nat)
    requires !Starts(ts, REDIRS)
    ensures var r := ParseWords(args, rs, ts);
      Accepts(ts, depth, Inside, |args|) <==> r.Done? && Goes(r.rest, depth, true)
    decreases |ts|
  {
    if ts != [] && ts[0].Word? && |args| < 9 {
      RedirsAccepted(ts[1..], depth, Inside, |args| + 1);
      var r := ParseRedirs(ts[1..]);
      if r.Files? {
        WordsAccepted(args + [ts[0].w], rs + r.list, r.rest, depth);
      }
    }
  }

  lemma {:induction false} ExecAccepted(ts: seq<Tok>, depth: nat)
    ensures var r := ParseExec(ts);
      Accepts(ts, depth, Start, 0) <==> r.Done? && Goes(r.rest, depth, true)
    decreases |ts|, 1
  {
    if Starts(ts, {'('}) {
      LineAccepted(ts[1..], depth + 1);
      var l := ParseLine(ts[1..]);
      if l.Done? && Starts(l.rest, {')'}) {
        RedirsAccepted(l.rest[1..], depth, Closed, 0);
      }
    } else {
      assert Accepts(ts, depth, Start, 0) <==> Accepts(ts, depth, Inside, 0);
      RedirsAccepted(ts, depth, Inside, 0);
      var r := ParseRedirs(ts);
      if r.Files? { WordsAccepted([], r.list, r.rest, depth); }
    }
  }

  lemma {:induction false} PipeAccepted(ts: seq<Tok>, depth: nat)
    ensures var r := ParsePipe(ts);
      Accepts(ts, depth, Start, 0) <==> r.Done? && Goes(r.rest, depth, false)
    decreases |ts|, 2
  {
    ExecAccepted(ts, depth);
    var r := ParseExec(ts);
    if r.Done? && Starts(r.rest, {'|'}) { PipeAccepted(r.rest[1..], depth); }
  }

  lemma {:induction false} BacksAccepted(c: Cmd<string>, ts: seq<Tok>, depth: nat)
    ensures var r := ParseBacks(c, ts);
      !Starts(r.rest, {'&'}) && (Goes(ts, depth, false) <==> Goes(r.rest, depth, false))
    decreases |ts|
  {
    if Starts(ts, {'&'}) {
      BacksAccepted(Back(c), ts[1..], depth);
      assert Accepts(ts[1..], depth, Amp, 0) <==> Goes(ts[1..], depth, false);
    }
  }

  lemma {:induction false} LineAccepted(ts: seq<Tok>, depth: nat)
    ensures var r := ParseLine(ts);
      Accepts(ts, depth, Start, 0) <==> r.Done? && Ends(r.rest, depth)
    decreases |ts|, 3
  {
    PipeAccepted(ts, depth);
    var r := ParsePipe(ts);
    if r.Done? {
      BacksAccepted(r.cmd, r.rest, depth);
      var b := ParseBacks(r.cmd, r.rest);
      if Starts(b.rest, {';'}) { LineAccepted(b.rest[1..], depth); }
    }
  }

  /** The parser accepts exactly these inputs. */
  lemma AcceptedExactly(ts: seq<Tok>)
    ensures ParseAll(ts).Done? <==> Accepts(ts, 0, Start, 0)
  {
    LineAccepted(ts, 0);
  }

  // ----- What the tree says --------------------------------------------------------------------

  predicate Paren(t: Tok) { t == Sym('(') || t == Sym(')') }

  /** The input without parentheses and without its redirections, or else without the words of its commands. */
  function Kept(ts: seq<Tok>, words: bool): seq<Tok> {
    if ts == [] then []
    else if Starts(ts, REDIRS) && |ts| > 1 then (if words then [] else ts[..2]) + Kept(ts[2..], words)
    else if Paren(ts[0]) || (ts[0].Word? && !words) then Kept(ts[1..], words)
    else [ts[0]] + Kept(ts[1..], words)
  }

  function Spelled(mode: Mode): Tok { match mode case In => Sym('<') case Out => Sym('>') case Append => Sym('+') }

  /** The same of a tree, from left to right. */
  function Said(c: Cmd<string>, words: bool): seq<Tok> {
    match c
    case Exec(argv) => if words then Words(argv) else []
    case Redir(cmd, file, mode) =>
      Said(cmd, words) + if words then [] else [Spelled(mode), Word(file)]
    case Pipe(left, right) => Said(left, words) + [Sym('|')] + Said(right, words)
    case List(left, right) => Said(left, words) + [Sym(';')] + Said(right, words)
    case Back(cmd) => Said(cmd, words) + [Sym('&')]
  }

  function Listed(rs: seq<Target<string>>, words: bool): seq<Tok> { if words then [] else TargetTokens(rs) }

  lemma {:induction false} ListedMore(rs: seq<Target<string>>, more: seq<Target<string>>, words: bool)
    ensures Listed(rs + more, words) == Listed(rs, words) + Listed(more, words)
    decreases |rs|
  {
    if rs == [] {
      assert rs + more == more;
    } else {
      ListedMore(rs[1..], more, words);
      assert (rs + more)[1..] == rs[1..] + more && (rs + more)[0] == rs[0];
    }
  }

  lemma {:induction false} WrapSaid(c: Cmd<string>, rs: seq<Target<string>>, words: bool)
    ensures Said(Wrap(c, rs), words) == Said(c, words) + Listed(rs, words)
    decreases |rs|
  {
    if rs != [] {
      var k := |rs| - 1;
      WrapSaid(c, rs[..k], words);
      ListedMore(rs[..k], rs[k..], words);
      assert rs == rs[..k] + rs[k..];
      assert rs[k..][1..] == [] && TargetTokens(rs[k..]) == [Sym(SymOf(rs[k].mode)), Word(rs[k].file)];
    }
  }

  lemma {:induction false} RedirsKept(ts: seq<Tok>, words: bool)
    ensures var r := ParseRedirs(ts);
      r.Files? ==> Kept(ts, words) == Listed(r.list, words) + Kept(r.rest, words) && !Starts(r.rest, REDIRS)
    decreases |ts|
  {
    if Starts(ts, REDIRS) && |ts| > 1 && ts[1].Word? {
      RedirsKept(ts[2..], words);
      var r := ParseRedirs(ts[2..]);
      if r.Files? {
        var all := [Target(ts[1].w, ModeOf(ts[0].c))] + r.list;
        assert all[1..] == r.list;
        assert ts[..2] == [Sym(SymOf(all[0].mode)), Word(all[0].file)];
        assert TargetTokens(all) == ts[..2] + TargetTokens(r.list);
      }
    }
  }

  lemma {:induction false} WordsKept(args: seq<string>, rs: seq<Target<string>>, ts: seq<Tok>, words: bool)
    requires !Starts(ts, REDIRS)
    ensures var r := ParseWords(args, rs, ts);
      r.Done? ==>
        Said(Exec(args), words) + Listed(rs, words) + Kept(ts, words) == Said(r.cmd, words) + Kept(r.rest, words)
    decreases |ts|
  {
    if ts == [] || Starts(ts, {'|', ')', '&', ';'}) {
      WrapSaid(Exec(args), rs, words);
    } else if ts[0].Word? && |args| < 9 {
      RedirsKept(ts[1..], words);
      var r := ParseRedirs(ts[1..]);
      if r.Files? {
        WordsKept(args + [ts[0].w], rs + r.list, r.rest, words);
        ListedMore(rs, r.list, words);
        MoreSaid(args, rs, ts[0], r.list, Kept(r.rest, words), words);
        assert Kept(ts, words) == (if words then [ts[0]] else []) + Kept(ts[1..], words);
      }
    }
  }

  /** A word goes to the words of the command, or is left out. */
  lemma MoreSaid(args: seq<string>, rs: seq<Target<string>>, t: Tok, more: seq<Target<string>>, rest: seq<Tok>,
                 words: bool)
    requires t.Word?
    ensures Said(Exec(args + [t.w]), words) + (Listed(rs, words) + Listed(more, words)) + rest ==
            Said(Exec(args), words) + Listed(rs, words)
            + ((if words then [t] else []) + (Listed(more, words) + rest))
  {
    assert Words(args + [t.w]) == Words(args) + [t];
  }

  lemma {:induction false} ExecKept(ts: seq<Tok>, words: bool)
    ensures var r := ParseExec(ts); r.Done? ==> Kept(ts, words) == Said(r.cmd, words) + Kept(r.rest, words)
    decreases |ts|, 1
  {
    if Starts(ts, {'('}) {
      BlockKept(ts, words);
    } else {
      RedirsKept(ts, words);
      var r := ParseRedirs(ts);
      if r.Files? { WordsKept([], r.list, r.rest, words); }
    }
  }

  lemma {:induction false} BlockKept(ts: seq<Tok>, words: bool)
    requires Starts(ts, {'('})
    ensures var r := ParseBlock(ts); r.Done? ==> Kept(ts, words) == Said(r.cmd, words) + Kept(r.rest, words)
    decreases |ts|, 0
  {
    LineKept(ts[1..], words);
    ParenKept(ts, words);
    hide Kept, Said, Listed, ParseLine, ParseRedirs;
    var l := ParseLine(ts[1..]);
    if l.Done? && Starts(l.rest, {')'}) {
      ParenKept(l.rest, words);
      RedirsKept(l.rest[1..], words);
      var r := ParseRedirs(l.rest[1..]);
      if r.Files? { WrapSaid(l.cmd, r.list, words); }
    }
  }

  lemma ParenKept(ts: seq<Tok>, words: bool)
    requires Starts(ts, {'(', ')'})
    ensures Kept(ts, words) == Kept(ts[1..], words)
  {
  }

  lemma {:induction false} PipeKept(ts: seq<Tok>, words: bool)
    ensures var r := ParsePipe(ts); r.Done? ==> Kept(ts, words) == Said(r.cmd, words) + Kept(r.rest, words)
    decreases |ts|, 2
  {
    ExecKept(ts, words);
    var r := ParseExec(ts);
    if r.Done? && Starts(r.rest, {'|'}) {
      PipeKept(r.rest[1..], words);
      var p := ParsePipe(r.rest[1..]);
      assert Kept(r.rest, words) == [Sym('|')] + Kept(r.rest[1..], words);
      if p.Done? { PipeSaid(r.cmd, p.cmd, Kept(p.rest, words), words); }
    }
  }

  lemma {:induction false} BacksKept(c: Cmd<string>, ts: seq<Tok>, words: bool)
    ensures var r := ParseBacks(c, ts); Said(c, words) + Kept(ts, words) == Said(r.cmd, words) + Kept(r.rest, words)
    decreases |ts|
  {
    if Starts(ts, {'&'}) {
      BacksKept(Back(c), ts[1..], words);
      assert Kept(ts, words) == [Sym('&')] + Kept(ts[1..], words);
    }
  }

  lemma PipeSaid(left: Cmd<string>, right: Cmd<string>, rest: seq<Tok>, words: bool)
    ensures Said(left, words) + ([Sym('|')] + (Said(right, words) + rest)) == Said(Pipe(left, right), words) + rest
  {
  }

  lemma ListSaid(left: Cmd<string>, right: Cmd<string>, rest: seq<Tok>, words: bool)
    ensures Said(left, words) + ([Sym(';')] + (Said(right, words) + rest)) == Said(List(left, right), words) + rest
  {
  }

  lemma {:induction false} LineKept(ts: seq<Tok>, words: bool)
    ensures var r := ParseLine(ts); r.Done? ==> Kept(ts, words) == Said(r.cmd, words) + Kept(r.rest, words)
    decreases |ts|, 3
  {
    PipeKept(ts, words);
    var r := ParsePipe(ts);
    if r.Done? {
      BacksKept(r.cmd, r.rest, words);
      var b := ParseBacks(r.cmd, r.rest);
      if Starts(b.rest, {';'}) {
        LineKept(b.rest[1..], words);
        var l := ParseLine(b.rest[1..]);
        assert Kept(b.rest, words) == [Sym(';')] + Kept(b.rest[1..], words);
        if l.Done? { ListSaid(b.cmd, l.cmd, Kept(l.rest, words), words); }
      }
    }
  }

  /** However an accepted input mixes words, redirections and parentheses: its tree has the words and the
      operators in the order of the input, and the redirections and the operators too. */
  lemma TreeSaysInput(ts: seq<Tok>, words: bool)
    ensures ParseAll(ts).Done? ==> Said(ParseAll(ts).cmd, words) == Kept(ts, words)
  {
    LineKept(ts, words);
  }

  /** Without parentheses `&` and `;` bind loosest, and `|` looser than words and redirections: printing the tree
      takes no parentheses. */
  predicate Ungrouped(c: Cmd<string>) {
    match c
    case Exec(_) => true
    case Redir(cmd, _, _) => Level(cmd) == 0 && Ungrouped(cmd)
    case Pipe(left, right) => Level(left) == 0 && Level(right) <= 1 && Ungrouped(left) && Ungrouped(right)
    case Back(cmd) => Level(cmd) <= 2 && Ungrouped(cmd)
    case List(left, right) => Level(left) <= 2 && Ungrouped(left) && Ungrouped(right)
  }

  predicate NoOpen(ts: seq<Tok>) { Sym('(') !in ts }

  lemma {:induction false} WrapUngrouped(c: Cmd<string>, rs: seq<Target<string>>)
    requires Level(c) == 0 && Ungrouped(c)
    ensures Level(Wrap(c, rs)) == 0 && Ungrouped(Wrap(c, rs))
    decreases |rs|
  {
    if rs != [] { WrapUngrouped(c, rs[..|rs| - 1]); }
  }

  lemma {:induction false} RedirsOpen(ts: seq<Tok>)
    requires NoOpen(ts)
    ensures ParseRedirs(ts).Files? ==> NoOpen(ParseRedirs(ts).rest)
    decreases |ts|
  {
    if Starts(ts, REDIRS) && |ts| > 1 { RedirsOpen(ts[2..]); }
  }

  lemma {:induction false} WordsUngrouped(args: seq<string>, rs: seq<Target<string>>, ts: seq<Tok>)
    requires NoOpen(ts)
    ensures var r := ParseWords(args, rs, ts); r.Done? ==> Level(r.cmd) == 0 && Ungrouped(r.cmd) && NoOpen(r.rest)
    decreases |ts|
  {
    WrapUngrouped(Exec(args), rs);
    if ts != [] && ts[0].Word? {
      RedirsOpen(ts[1..]);
      var r := ParseRedirs(ts[1..]);
      if r.Files? { WordsUngrouped(args + [ts[0].w], rs + r.list, r.rest); }
    }
  }

  lemma {:induction false} PipeUngrouped(ts: seq<Tok>)
    requires NoOpen(ts)
    ensures var r := ParsePipe(ts); r.Done? ==> Level(r.cmd) <= 1 && Ungrouped(r.cmd) && NoOpen(r.rest)
    decreases |ts|
  {
    RedirsOpen(ts);
    var f := ParseRedirs(ts);
    if f.Files? { WordsUngrouped([], f.list, f.rest); }
    var r := ParseExec(ts);
    if r.Done? && Starts(r.rest, {'|'}) { PipeUngrouped(r.rest[1..]); }
  }

  lemma {:induction false} BacksUngrouped(c: Cmd<string>, ts: seq<Tok>)
    requires NoOpen(ts) && Level(c) <= 2 && Ungrouped(c)
    ensures var r := ParseBacks(c, ts); Level(r.cmd) <= 2 && Ungrouped(r.cmd) && NoOpen(r.rest)
    decreases |ts|
  {
    if Starts(ts, {'&'}) { BacksUngrouped(Back(c), ts[1..]); }
  }

  /** An input without parentheses groups by precedence alone. */
  lemma {:induction false} GroupsByPrecedence(ts: seq<Tok>)
    requires NoOpen(ts)
    ensures var r := ParseLine(ts); r.Done? ==> Ungrouped(r.cmd) && NoOpen(r.rest)
    decreases |ts|
  {
    PipeUngrouped(ts);
    var r := ParsePipe(ts);
    if r.Done? {
      BacksUngrouped(r.cmd, r.rest);
      var b := ParseBacks(r.cmd, r.rest);
      if Starts(b.rest, {';'}) { GroupsByPrecedence(b.rest[1..]); }
    }
  }

  // ----- What the lexer takes ------------------------------------------------------------------

  predicate Blank(c: char) { c == ' ' || c == '\t' || c == '\r' || c == '\n' || c == 11 as char }

  predicate Operator(c: char) { c == '<' || c == '|' || c == '>' || c == '&' || c == ';' || c == '(' || c == ')' }

  /** The input from `i` on without its white space. */
  function Solid(s: string, i: nat): string
    requires i <= |s|
    decreases |s| - i
  {
    if i == |s| then "" else (if Blank(s[i]) then "" else [s[i]]) + Solid(s, i + 1)
  }

  function Spelling(t: Tok): string {
    match t
    case Word(w) => w
    case Sym(c) => if c == '+' then ">>" else [c]
  }

  function Spellings(ts: seq<Tok>): string {
    if ts == [] then "" else Spelling(ts[0]) + Spellings(ts[1..])
  }

  lemma {:induction false} SolidRun(s: string, i: nat, j: nat)
    requires i <= j <= |s| && forall k :: i <= k < j ==> !Space(s[k])
    ensures Solid(s, i) == s[i..j] + Solid(s, j)
    decreases j - i
  {
    if i < j {
      SolidOne(s, i);
      hide Solid, Space;
      SolidRun(s, i + 1, j);
      assert s[i..j] == [s[i]] + s[i + 1..j];
    } else {
      hide Solid, Space;
      assert s[i..j] == [];
    }
  }

  lemma SolidOne(s: string, i: nat)
    requires i < |s|
    ensures Solid(s, i) == if Space(s[i]) then Solid(s, i + 1) else [s[i]] + Solid(s, i + 1)
  {
  }

  lemma {:induction false} SolidSkip(s: string, i: nat)
    requires i <= |s|
    ensures Solid(s, Skip(s, i)) == Solid(s, i)
    decreases |s| - i
  {
    if i < |s| {
      SolidOne(s, i);
      if Space(s[i]) { SolidSkip(s, i + 1); }
    }
  }

  /** The tokens spell the input: nothing but white space is left out, and nothing is added. */
  lemma {:induction false} LexSpells(s: string, i: nat)
    requires i <= |s| && CString(s)
    ensures Spellings(Lex(s, i)) == Solid(s, i)
    decreases |s| - i
  {
    hide Solid, TokenAt, TokenEnd, Spelling;
    var j := Skip(s, i);
    SolidSkip(s, i);
    if j < |s| {
      var end := TokenEnd(s, j);
      LexSpells(s, end);
      TokenSpelled(s, j);
      SolidRun(s, j, end);
      assert Lex(s, i)[1..] == Lex(s, end);
    } else {
      assert Solid(s, j) == "" by { SolidEnd(s); }
    }
  }

  lemma SolidEnd(s: string)
    ensures Solid(s, |s|) == ""
  {
  }

  lemma TokenSpelled(s: string, j: nat)
    requires j < |s| && !Space(s[j]) && s[j] != NUL
    ensures Spelling(TokenAt(s, j)) == s[j..TokenEnd(s, j)]
    ensures forall k :: j <= k < TokenEnd(s, j) ==> !Space(s[k])
  {
  }

  /** No token could have been longer: a word ends where white space or a symbol stands, and `>` is not before
      another. */
  lemma TokenIsLongest(s: string, i: nat)
    requires i <= |s| && CString(s) && Lex(s, i) != []
    ensures var t, j, end := Lex(s, i)[0], Skip(s, i), TokenEnd(s, Skip(s, i));
      && Spelling(t) == s[j..end] && Lex(s, i)[1..] == Lex(s, end)
      && (t.Word? ==> end == |s| || Blank(s[end]) || Operator(s[end]))
      && (t.Word? ==> t.w != "" && forall k :: 0 <= k < |t.w| ==> !Blank(t.w[k]) && !Operator(t.w[k]))
      && (t == Sym('>') ==> end == |s| || s[end] != '>')
      && (t.Sym? ==> t.c == '+' || Operator(t.c))
  {
  }
}
