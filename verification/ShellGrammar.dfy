/** The grammar of lab1/user/sh.c on tokens: what its recursive-descent parser answers, and the
    printing that it inverts. */
module ShellGrammar {

  /** How `<`, `>` and `>>` open the file (sh.c:579-589). */
  datatype Mode = In | Out | Append

  /** Command trees; `W` is what a word is: its text, or where it stands in the input. */
  datatype Cmd<W> =
    | Exec(argv: seq<W>)
    | Redir(cmd: Cmd<W>, file: W, mode: Mode)
    | Pipe(left: Cmd<W>, right: Cmd<W>)
    | List(left: Cmd<W>, right: Cmd<W>)
    | Back(cmd: Cmd<W>)

  /** Tokens as `gettoken` tells them apart; `+` stands for `>>`. */
  datatype Tok = Word(w: string) | Sym(c: char)

  /** The messages the parser panics with. */
  datatype Fault = Syntax | MissingFile | TooManyArgs | MissingParen | NoBlock

  /** A redirection waiting for its command. */
  datatype Target<W> = Target(file: W, mode: Mode)

  const MAXARGS: nat := 10

  datatype Parse = Done(cmd: Cmd<string>, rest: seq<Tok>) | Panic(fault: Fault)

  datatype Targets = Files(list: seq<Target<string>>, rest: seq<Tok>) | NoFile

  /** Redirections wrap outwards, in the order read. */
  function Wrap<W>(c: Cmd<W>, rs: seq<Target<W>>): Cmd<W>
    decreases |rs|
  {
    if rs == [] then c else Redir(Wrap(c, rs[..|rs| - 1]), rs[|rs| - 1].file, rs[|rs| - 1].mode)
  }

  predicate Starts(ts: seq<Tok>, cs: set<char>) { ts != [] && ts[0].Sym? && ts[0].c in cs }

  function ModeOf(c: char): Mode { if c == '<' then In else if c == '>' then Out else Append }

  function SymOf(m: Mode): char { match m case In => '<' case Out => '>' case Append => '+' }

  function ParseRedirs(ts: seq<Tok>): (r: Targets)
    ensures r.Files? ==> |r.rest| <= |ts|
  {
    if !Starts(ts, {'<', '>', '+'}) then Files([], ts)
    else if |ts| < 2 || !ts[1].Word? then NoFile
    else
      var r := ParseRedirs(ts[2..]);
      if r.NoFile? then r else Files([Target(ts[1].w, ModeOf(ts[0].c))] + r.list, r.rest)
  }

  function ParseLine(ts: seq<Tok>): (r: Parse)
    ensures r.Done? ==> |r.rest| <= |ts|
    decreases |ts|, 4
  {
    var r := ParsePipe(ts);
    if r.Panic? then r
    else
      var b := ParseBacks(r.cmd, r.rest);
      if Starts(b.rest, {';'}) then
        var l := ParseLine(b.rest[1..]);
        if l.Panic? then l else Done(List(b.cmd, l.cmd), l.rest)
      else b
  }

  function ParseBacks(c: Cmd<string>, ts: seq<Tok>): (r: Parse)
    ensures r.Done? && |r.rest| <= |ts|
    decreases |ts|
  {
    if Starts(ts, {'&'}) then ParseBacks(Back(c), ts[1..]) else Done(c, ts)
  }

  function ParsePipe(ts: seq<Tok>): (r: Parse)
    ensures r.Done? ==> |r.rest| <= |ts|
    decreases |ts|, 3
  {
    var r := ParseExec(ts);
    if r.Panic? then r
    else if Starts(r.rest, {'|'}) then
      var p := ParsePipe(r.rest[1..]);
      if p.Panic? then p else Done(Pipe(r.cmd, p.cmd), p.rest)
    else r
  }

  function ParseExec(ts: seq<Tok>): (r: Parse)
    ensures r.Done? ==> |r.rest| <= |ts|
    decreases |ts|, 2
  {
    if Starts(ts, {'('}) then ParseBlock(ts)
    else
      var r := ParseRedirs(ts);
      if r.NoFile? then Panic(MissingFile) else ParseWords([], r.list, r.rest)
  }

  function ParseBlock(ts: seq<Tok>): (r: Parse)
    requires Starts(ts, {'('})
    ensures r.Done? ==> |r.rest| < |ts|
    decreases |ts|, 1
  {
    var l := ParseLine(ts[1..]);
    if l.Panic? then l
    else if !Starts(l.rest, {')'}) then Panic(MissingParen)
    else
      var r := ParseRedirs(l.rest[1..]);
      if r.NoFile? then Panic(MissingFile) else Done(Wrap(l.cmd, r.list), r.rest)
  }

  /** The loop of `parseexec` over words and redirections. */
  function ParseWords(args: seq<string>, rs: seq<Target<string>>, ts: seq<Tok>): (r: Parse)
    ensures r.Done? ==> |r.rest| <= |ts|
    decreases |ts|, 0
  {
    if ts == [] || Starts(ts, {'|', ')', '&', ';'}) then Done(Wrap(Exec(args), rs), ts)
    else if !ts[0].Word? then Panic(Syntax)
    else if |args| + 1 >= MAXARGS then Panic(TooManyArgs)
    else
      var r := ParseRedirs(ts[1..]);
      if r.NoFile? then Panic(MissingFile) else ParseWords(args + [ts[0].w], rs + r.list, r.rest)
  }

  /** `parsecmd`: nothing may be left over. */
  function ParseAll(ts: seq<Tok>): Parse {
    var r := ParseLine(ts);
    if r.Done? && r.rest != [] then Panic(Syntax) else r
  }

  // ----- Printing ------------------------------------------------------------------------------

  /** How loosely a command binds: a command in a tighter place needs parentheses. */
  function Level<W>(c: Cmd<W>): nat {
    match c
    case Exec(_) => 0
    case Redir(_, _, _) => 0
    case Pipe(_, _) => 1
    case Back(_) => 2
    case List(_, _) => 3
  }

  function Words(ws: seq<string>): (r: seq<Tok>)
    ensures |r| == |ws| && forall i :: 0 <= i < |ws| ==> r[i] == Word(ws[i])
  {
    seq(|ws|, i requires 0 <= i < |ws| => Word(ws[i]))
  }

  /** The tokens of a command, with parentheses exactly where the place demands them. */
  function Tokens(c: Cmd<string>, max: nat): seq<Tok>
    decreases c, 1
  {
    if Level(c) <= max then Bare(c) else [Sym('(')] + Bare(c) + [Sym(')')]
  }

  function Bare(c: Cmd<string>): seq<Tok>
    decreases c, 0
  {
    match c
    case Exec(argv) => Words(argv)
    case Redir(cmd, file, mode) => Tokens(cmd, 0) + [Sym(SymOf(mode)), Word(file)]
    case Pipe(left, right) => Tokens(left, 0) + [Sym('|')] + Tokens(right, 1)
    case Back(cmd) => Tokens(cmd, 2) + [Sym('&')]
    case List(left, right) => Tokens(left, 2) + [Sym(';')] + Tokens(right, 3)
  }

  /** Every command has room in `argv`. */
  predicate Fits<W>(c: Cmd<W>) {
    match c
    case Exec(argv) => |argv| < MAXARGS
    case Redir(cmd, _, _) => Fits(cmd)
    case Pipe(left, right) => Fits(left) && Fits(right)
    case List(left, right) => Fits(left) && Fits(right)
    case Back(cmd) => Fits(cmd)
  }

  // ----- Parsing inverts printing --------------------------------------------------------------

  function TargetTokens(rs: seq<Target<string>>): seq<Tok> {
    if rs == [] then [] else [Sym(SymOf(rs[0].mode)), Word(rs[0].file)] + TargetTokens(rs[1..])
  }

  /** Nothing follows, or a symbol of `cs`. */
  predicate Stops(ts: seq<Tok>, cs: set<char>) { ts == [] || Starts(ts, cs) }

  lemma SplitTwo(a: Tok, b: Tok, tail: seq<Tok>, rest: seq<Tok>)
    ensures var ts := [a, b] + tail + rest; |ts| >= 2 && ts[0] == a && ts[1] == b && ts[2..] == tail + rest
  {
    var ts := [a, b] + tail + rest;
    assert ts == [a, b] + (tail + rest);
  }

  lemma TargetTokensAt(rs: seq<Target<string>>, rest: seq<Tok>)
    requires rs != []
    ensures var ts := TargetTokens(rs) + rest;
      |ts| >= 2 && ts[0] == Sym(SymOf(rs[0].mode)) && ts[1] == Word(rs[0].file)
      && ts[2..] == TargetTokens(rs[1..]) + rest
  {
    var tail := TargetTokens(rs[1..]);
    assert TargetTokens(rs) == [Sym(SymOf(rs[0].mode)), Word(rs[0].file)] + tail;
    hide TargetTokens;
    SplitTwo(Sym(SymOf(rs[0].mode)), Word(rs[0].file), tail, rest);
  }

  lemma {:induction false} RedirsBack(rs: seq<Target<string>>, rest: seq<Tok>)
    requires !Starts(rest, {'<', '>', '+'})
    ensures ParseRedirs(TargetTokens(rs) + rest) == Files(rs, rest)
    decreases |rs|
  {
    if rs == [] {
      assert TargetTokens(rs) + rest == rest;
    } else {
      TargetTokensAt(rs, rest);
      hide TargetTokens;
      RedirsBack(rs[1..], rest);
      assert [rs[0]] + rs[1..] == rs;
    }
  }

  /** The tokens of `ws[i..]`, the redirections and the rest. */
  function From(ws: seq<string>, i: nat, tail: seq<Tok>): seq<Tok>
    requires i <= |ws|
  {
    Words(ws)[i..] + tail
  }

  lemma FromAt(ws: seq<string>, i: nat, tail: seq<Tok>)
    requires i < |ws|
    ensures From(ws, i, tail) != [] && From(ws, i, tail)[0] == Word(ws[i])
    ensures From(ws, i, tail)[1..] == From(ws, i + 1, tail)
    ensures From(ws, |ws|, tail) == tail
  {
  }

  lemma {:induction false} WordsBack(ws: seq<string>, i: nat, rs: seq<Target<string>>, rest: seq<Tok>)
    requires i < |ws| < MAXARGS && Stops(rest, {'|', ')', '&', ';'})
    ensures ParseWords(ws[..i], [], From(ws, i, TargetTokens(rs) + rest)) == Done(Wrap(Exec(ws), rs), rest)
    decreases |ws| - i
  {
    var tail := TargetTokens(rs) + rest;
    FromAt(ws, i, tail);
    assert ws[..i] + [ws[i]] == ws[..i + 1];
    hide From, TargetTokens;
    var none: seq<Target<string>> := [];
    if i + 1 < |ws| {
      FromAt(ws, i + 1, tail);
      assert ParseRedirs(From(ws, i + 1, tail)) == Files(none, From(ws, i + 1, tail));
      WordsBack(ws, i + 1, rs, rest);
      assert none + none == none;
    } else {
      RedirsBack(rs, rest);
      assert ws[..i + 1] == ws;
      assert none + rs == rs;
    }
  }

  lemma {:induction false} WrapInner(c: Cmd<string>, r: Target<string>, rs: seq<Target<string>>)
    ensures Wrap(c, [r] + rs) == Wrap(Redir(c, r.file, r.mode), rs)
    decreases |rs|
  {
    if rs != [] {
      var all := [r] + rs;
      assert all[..|all| - 1] == [r] + rs[..|rs| - 1];
      WrapInner(c, r, rs[..|rs| - 1]);
    } else {
      assert ([r] + rs)[..0] == [];
    }
  }

  lemma ExecWords(ws: seq<string>, rs: seq<Target<string>>, rest: seq<Tok>)
    requires |ws| < MAXARGS && Stops(rest, {'|', ')', '&', ';'})
    ensures ParseExec(Tokens(Exec(ws), 0) + (TargetTokens(rs) + rest)) == Done(Wrap(Exec(ws), rs), rest)
  {
    var tail := TargetTokens(rs) + rest;
    var ts := Tokens(Exec(ws), 0) + tail;
    assert Tokens(Exec(ws), 0) == Words(ws);
    assert Words(ws)[0..] == Words(ws);
    assert ts == From(ws, 0, tail);
    hide Tokens, TargetTokens;
    if ws == [] {
      assert ts == tail;
      RedirsBack(rs, rest);
      TailStart(rs, rest);
    } else {
      FromAt(ws, 0, tail);
      assert ws[..0] == [];
      WordsBack(ws, 0, rs, rest);
    }
  }

  lemma TailStart(rs: seq<Target<string>>, rest: seq<Tok>)
    requires Stops(rest, {'|', ')', '&', ';'})
    ensures !Starts(TargetTokens(rs) + rest, {'('})
  {
    if rs != [] { TargetTokensAt(rs, rest); } else { assert TargetTokens(rs) + rest == rest; }
  }

  lemma RedirTokens(cmd: Cmd<string>, file: string, mode: Mode, rs: seq<Target<string>>, rest: seq<Tok>)
    ensures Tokens(Redir(cmd, file, mode), 0) + (TargetTokens(rs) + rest)
            == Tokens(cmd, 0) + (TargetTokens([Target(file, mode)] + rs) + rest)
  {
    var all := [Target(file, mode)] + rs;
    assert all[1..] == rs;
    assert TargetTokens(all) == [Sym(SymOf(mode)), Word(file)] + TargetTokens(rs);
    assert Tokens(Redir(cmd, file, mode), 0) == Tokens(cmd, 0) + [Sym(SymOf(mode)), Word(file)];
  }

  lemma {:induction false} ExecBack(c: Cmd<string>, rs: seq<Target<string>>, rest: seq<Tok>)
    requires Fits(c) && Stops(rest, {'|', ')', '&', ';'})
    ensures ParseExec(Tokens(c, 0) + (TargetTokens(rs) + rest)) == Done(Wrap(c, rs), rest)
    decreases c, if Level(c) == 0 then 0 else 4
  {
    var ts := Tokens(c, 0) + (TargetTokens(rs) + rest);
    if Level(c) > 0 {
      var inner := [Sym(')')] + (TargetTokens(rs) + rest);
      assert ts[1..] == Tokens(c, 3) + inner;
      LineBack(c, inner);
      assert inner[1..] == TargetTokens(rs) + rest;
      RedirsBack(rs, rest);
    } else {
      match c
      case Exec(ws) =>
        ExecWords(ws, rs, rest);
      case Redir(cmd, file, mode) =>
        var all := [Target(file, mode)] + rs;
        RedirTokens(cmd, file, mode, rs, rest);
        ExecBack(cmd, all, rest);
        WrapInner(cmd, Target(file, mode), rs);
    }
  }

  lemma {:induction false} PipeBack(c: Cmd<string>, rest: seq<Tok>)
    requires Fits(c) && Stops(rest, {')', '&', ';'})
    ensures ParsePipe(Tokens(c, 1) + rest) == Done(c, rest)
    decreases c, if Level(c) <= 1 then 1 else 5
  {
    if c.Pipe? {
      var inner := [Sym('|')] + (Tokens(c.right, 1) + rest);
      assert Tokens(c, 1) + rest == Tokens(c.left, 0) + (TargetTokens([]) + inner);
      ExecBack(c.left, [], inner);
      assert inner[1..] == Tokens(c.right, 1) + rest;
      PipeBack(c.right, rest);
    } else {
      assert Tokens(c, 1) + rest == Tokens(c, 0) + (TargetTokens([]) + rest);
      ExecBack(c, [], rest);
    }
  }

  lemma {:induction false} BacksBack(c: Cmd<string>, rest: seq<Tok>)
    requires Fits(c) && Stops(rest, {')', '&', ';'})
    ensures var r := ParsePipe(Tokens(c, 2) + rest); r.Done? && ParseBacks(r.cmd, r.rest) == ParseBacks(c, rest)
    decreases c, if Level(c) <= 2 then 2 else 6
  {
    if c.Back? {
      var inner := [Sym('&')] + rest;
      assert Tokens(c, 2) + rest == Tokens(c.cmd, 2) + inner;
      BacksBack(c.cmd, inner);
      assert inner[1..] == rest;
    } else {
      assert Tokens(c, 2) == Tokens(c, 1);
      PipeBack(c, rest);
    }
  }

  lemma {:induction false} LineBack(c: Cmd<string>, rest: seq<Tok>)
    requires Fits(c) && Stops(rest, {')'})
    ensures ParseLine(Tokens(c, 3) + rest) == Done(c, rest)
    decreases c, 3
  {
    if c.List? {
      var inner := [Sym(';')] + (Tokens(c.right, 3) + rest);
      assert Tokens(c, 3) + rest == Tokens(c.left, 2) + inner;
      BacksBack(c.left, inner);
      assert ParseBacks(c.left, inner) == Done(c.left, inner);
      assert inner[1..] == Tokens(c.right, 3) + rest;
      LineBack(c.right, rest);
    } else {
      assert Tokens(c, 3) == Tokens(c, 2);
      BacksBack(c, rest);
      assert ParseBacks(c, rest) == Done(c, rest);
    }
  }

  /** Printing a command and parsing the tokens gives the command back. */
  lemma TokensRoundTrip(c: Cmd<string>)
    requires Fits(c)
    ensures ParseAll(Tokens(c, 3)) == Done(c, [])
  {
    LineBack(c, []);
    assert Tokens(c, 3) + [] == Tokens(c, 3);
  }

  // ----- Whatever is accepted can be printed ---------------------------------------------------

  lemma {:induction false} WrapFits(c: Cmd<string>, rs: seq<Target<string>>)
    ensures Fits(Wrap(c, rs)) == Fits(c)
    decreases |rs|
  {
    if rs != [] { WrapFits(c, rs[..|rs| - 1]); }
  }

  lemma {:induction false} LineFits(ts: seq<Tok>)
    ensures var r := ParseLine(ts); r.Done? ==> Fits(r.cmd)
    decreases |ts|, 4
  {
    var r := ParsePipe(ts);
    PipeFits(ts);
    if r.Done? {
      BacksFit(r.cmd, r.rest);
      var b := ParseBacks(r.cmd, r.rest);
      if Starts(b.rest, {';'}) { LineFits(b.rest[1..]); }
    }
  }

  lemma {:induction false} BacksFit(c: Cmd<string>, ts: seq<Tok>)
    ensures Fits(ParseBacks(c, ts).cmd) == Fits(c)
    decreases |ts|
  {
    if Starts(ts, {'&'}) { BacksFit(Back(c), ts[1..]); }
  }

  lemma {:induction false} PipeFits(ts: seq<Tok>)
    ensures var r := ParsePipe(ts); r.Done? ==> Fits(r.cmd)
    decreases |ts|, 3
  {
    ExecFits(ts);
    var r := ParseExec(ts);
    if r.Done? && Starts(r.rest, {'|'}) { PipeFits(r.rest[1..]); }
  }

  lemma {:induction false} ExecFits(ts: seq<Tok>)
    ensures var r := ParseExec(ts); r.Done? ==> Fits(r.cmd)
    decreases |ts|, 2
  {
    if Starts(ts, {'('}) {
      LineFits(ts[1..]);
      var l := ParseLine(ts[1..]);
      if l.Done? && Starts(l.rest, {')'}) {
        var r := ParseRedirs(l.rest[1..]);
        if r.Files? { WrapFits(l.cmd, r.list); }
      }
    } else {
      var r := ParseRedirs(ts);
      if r.Files? { WordsFit([], r.list, r.rest); }
    }
  }

  lemma {:induction false} WordsFit(args: seq<string>, rs: seq<Target<string>>, ts: seq<Tok>)
    requires |args| < MAXARGS
    ensures var r := ParseWords(args, rs, ts); r.Done? ==> Fits(r.cmd)
    decreases |ts|, 0
  {
    WrapFits(Exec(args), rs);
    if ts != [] && !Starts(ts, {'|', ')', '&', ';'}) && ts[0].Word? && |args| + 1 < MAXARGS {
      var r := ParseRedirs(ts[1..]);
      if r.Files? { WordsFit(args + [ts[0].w], rs + r.list, r.rest); }
    }
  }

  /** So printing what was parsed and parsing it again changes nothing, whatever the first input was. */
  lemma ParseIsNormal(ts: seq<Tok>)
    ensures var r := ParseAll(ts); r.Done? ==> Fits(r.cmd) && ParseAll(Tokens(r.cmd, 3)) == Done(r.cmd, [])
  {
    LineFits(ts);
    var r := ParseAll(ts);
    if r.Done? { TokensRoundTrip(r.cmd); }
  }
}
