/** The lexer and recursive-descent parser of lab1/user/sh.c on characters, with the cursor `*ps` as
    an index into the input; each function is proved to answer what the grammar on tokens answers. */
module ShellParser {

  import opened ShellGrammar

  const NUL: char := '\0'

  predicate Space(c: char) { c in {' ', '\t', '\r', '\n', '\U{000B}'} }

  predicate Symbol(c: char) { c in {'<', '|', '>', '&', ';', '(', ')'} }

  predicate WordChar(c: char) { !Space(c) && !Symbol(c) && c != NUL }

  /** The characters of a C string. */
  ghost predicate CString(s: string) { forall i :: 0 <= i < |s| ==> s[i] != NUL }

  /** The character at `i`, the terminating NUL at the end. */
  function At(s: string, i: nat): char { if i < |s| then s[i] else NUL }

  // ----- What the lexer finds ------------------------------------------------------------------

  function Skip(s: string, i: nat): (r: nat)
    requires i <= |s|
    ensures i <= r <= |s| && (r < |s| ==> !Space(s[r]))
    decreases |s| - i
  {
    if i < |s| && Space(s[i]) then Skip(s, i + 1) else i
  }

  function WordEnd(s: string, i: nat): (r: nat)
    requires i <= |s|
    ensures i <= r <= |s| && (r < |s| ==> !WordChar(s[r])) && (i < |s| && WordChar(s[i]) ==> i < r)
    ensures forall k :: i <= k < r ==> WordChar(s[k])
    decreases |s| - i
  {
    if i < |s| && WordChar(s[i]) then WordEnd(s, i + 1) else i
  }

  function TokenEnd(s: string, j: nat): (r: nat)
    requires j < |s| && !Space(s[j]) && s[j] != NUL
    ensures j < r <= |s|
  {
    if s[j] == '>' && At(s, j + 1) == '>' then j + 2
    else if Symbol(s[j]) then j + 1
    else WordEnd(s, j)
  }

  function TokenAt(s: string, j: nat): Tok
    requires j < |s| && !Space(s[j]) && s[j] != NUL
  {
    if s[j] == '>' && At(s, j + 1) == '>' then Sym('+')
    else if Symbol(s[j]) then Sym(s[j])
    else Word(s[j..WordEnd(s, j)])
  }

  ghost function Lex(s: string, i: nat): seq<Tok>
    requires i <= |s| && CString(s)
    decreases |s| - i
  {
    var j := Skip(s, i);
    if j >= |s| then [] else [TokenAt(s, j)] + Lex(s, TokenEnd(s, j))
  }

  lemma LexSkip(s: string, i: nat)
    requires i <= |s| && CString(s)
    ensures Lex(s, Skip(s, i)) == Lex(s, i)
  {
    assert Skip(s, Skip(s, i)) == Skip(s, i);
  }

  // ----- Words in the input --------------------------------------------------------------------

  /** A word by its first character and the one past it: `q` and `eq`. */
  datatype Span = Span(q: nat, eq: nat)

  function Slice(s: string, w: Span): string {
    if w.q <= w.eq <= |s| then s[w.q..w.eq] else []
  }

  /** A longest run of word characters. */
  ghost predicate IsWord(s: string, w: Span) {
    && w.q < w.eq <= |s| && (w.eq < |s| ==> !WordChar(s[w.eq]))
    && forall k :: w.q <= k < w.eq ==> WordChar(s[k])
  }

  function Texts(s: string, ws: seq<Span>): (r: seq<string>)
    ensures |r| == |ws| && forall i :: 0 <= i < |ws| ==> r[i] == Slice(s, ws[i])
  {
    seq(|ws|, i requires 0 <= i < |ws| => Slice(s, ws[i]))
  }

  /** The command with the words themselves. */
  function TextOf(s: string, c: Cmd<Span>): Cmd<string> {
    match c
    case Exec(argv) => Exec(Texts(s, argv))
    case Redir(cmd, file, mode) => Redir(TextOf(s, cmd), Slice(s, file), mode)
    case Pipe(left, right) => Pipe(TextOf(s, left), TextOf(s, right))
    case List(left, right) => List(TextOf(s, left), TextOf(s, right))
    case Back(cmd) => Back(TextOf(s, cmd))
  }

  function Spans(c: Cmd<Span>): set<Span> {
    match c
    case Exec(argv) => set i | 0 <= i < |argv| :: argv[i]
    case Redir(cmd, file, _) => Spans(cmd) + {file}
    case Pipe(left, right) => Spans(left) + Spans(right)
    case List(left, right) => Spans(left) + Spans(right)
    case Back(cmd) => Spans(cmd)
  }

  ghost predicate AllWords(s: string, c: Cmd<Span>) {
    forall w :: w in Spans(c) ==> IsWord(s, w)
  }

  function TargetTexts(s: string, rs: seq<Target<Span>>): (r: seq<Target<string>>)
    ensures |r| == |rs| && forall i :: 0 <= i < |rs| ==> r[i] == Target(Slice(s, rs[i].file), rs[i].mode)
  {
    seq(|rs|, i requires 0 <= i < |rs| => Target(Slice(s, rs[i].file), rs[i].mode))
  }

  ghost predicate TargetWords(s: string, rs: seq<Target<Span>>) {
    forall i :: 0 <= i < |rs| ==> IsWord(s, rs[i].file)
  }

  lemma {:induction false} WrapText(s: string, c: Cmd<Span>, rs: seq<Target<Span>>)
    ensures TextOf(s, Wrap(c, rs)) == Wrap(TextOf(s, c), TargetTexts(s, rs))
    ensures AllWords(s, c) && TargetWords(s, rs) ==> AllWords(s, Wrap(c, rs))
    decreases |rs|
  {
    if rs != [] {
      var front := rs[..|rs| - 1];
      WrapText(s, c, front);
      assert TargetTexts(s, rs)[..|rs| - 1] == TargetTexts(s, front);
      assert Spans(Wrap(c, rs)) == Spans(Wrap(c, front)) + {rs[|rs| - 1].file};
    }
  }

  // ----- gettoken and peek ---------------------------------------------------------------------

  /** The token at `j` ends at `end`, and the next one is looked for from `next` on. */
  lemma TokenLex(s: string, ps: nat, j: nat, end: nat, next: nat)
    requires ps <= |s| && CString(s) && j == Skip(s, ps)
    requires j < |s| ==> end == TokenEnd(s, j) && next == Skip(s, end)
    ensures j == |s| ==> Lex(s, ps) == []
    ensures j < |s| ==> Lex(s, ps) != [] && Lex(s, ps)[0] == TokenAt(s, j) && Lex(s, next) == Lex(s, ps)[1..]
    ensures j < |s| && TokenAt(s, j).Word? ==> IsWord(s, Span(j, end)) && Slice(s, Span(j, end)) == TokenAt(s, j).w
  {
    if j < |s| {
      LexSkip(s, end);
    }
  }

  /** The end of the token at `q`, and its code (sh.c:471-495). */
  method ScanToken(s: string, q: nat) returns (ret: char, eq: nat)
    requires q <= |s| && CString(s) && (q < |s| ==> !Space(s[q]))
    ensures q == |s| ==> ret == NUL && eq == |s|
    ensures q < |s| ==> eq == TokenEnd(s, q)
    ensures q < |s| && TokenAt(s, q).Sym? ==> ret == TokenAt(s, q).c && ret != NUL && ret != 'a'
    ensures q < |s| && TokenAt(s, q).Word? ==> ret == 'a'
  {
    eq := q;
    ret := At(s, eq);
    if ret == NUL {
    } else if ret == '|' || ret == '(' || ret == ')' || ret == ';' || ret == '&' || ret == '<' {
      eq := eq + 1;
    } else if ret == '>' {
      eq := eq + 1;
      if At(s, eq) == '>' {
        ret := '+';
        eq := eq + 1;
      }
    } else {
      ret := 'a';
      while eq < |s| && !Space(s[eq]) && !Symbol(s[eq])
        invariant q <= eq <= |s| && WordEnd(s, eq) == WordEnd(s, q)
      {
        eq := eq + 1;
      }
    }
  }

  /** `gettoken` (sh.c:460-503). */
  method GetToken(s: string, ps: nat) returns (ret: char, q: nat, eq: nat, ps': nat)
    requires ps <= |s| && CString(s)
    ensures ps <= ps' <= |s|
    ensures Lex(s, ps) == [] ==> ret == NUL && ps' == |s|
    ensures Lex(s, ps) != [] ==> ps < ps' && Lex(s, ps') == Lex(s, ps)[1..]
    ensures Lex(s, ps) != [] && Lex(s, ps)[0].Sym? ==> ret == Lex(s, ps)[0].c && ret != NUL && ret != 'a'
    ensures Lex(s, ps) != [] && Lex(s, ps)[0].Word? ==>
      ret == 'a' && IsWord(s, Span(q, eq)) && Slice(s, Span(q, eq)) == Lex(s, ps)[0].w
  {
    hide Lex, TokenAt, TokenEnd, IsWord, Slice;
    q := ps;
    while q < |s| && Space(s[q])
      invariant ps <= q <= |s| && Skip(s, q) == Skip(s, ps)
    {
      q := q + 1;
    }
    ret, eq := ScanToken(s, q);
    ps' := eq;
    while ps' < |s| && Space(s[ps'])
      invariant eq <= ps' <= |s| && Skip(s, ps') == Skip(s, eq)
    {
      ps' := ps' + 1;
    }
    TokenLex(s, ps, q, eq, ps');
  }

  /** `peek` (sh.c:505-515). */
  method Peek(s: string, ps: nat, toks: set<char>) returns (ps': nat, found: bool)
    requires ps <= |s| && CString(s) && forall c :: c in toks ==> Symbol(c)
    ensures ps <= ps' <= |s| && Lex(s, ps') == Lex(s, ps)
    ensures found <==> Starts(Lex(s, ps), if '>' in toks then toks + {'+'} else toks)
    ensures Lex(s, ps) == [] <==> ps' == |s|
  {
    var i := ps;
    while i < |s| && Space(s[i])
      invariant ps <= i <= |s| && Skip(s, i) == Skip(s, ps)
    {
      i := i + 1;
    }
    LexSkip(s, ps);
    ps' := i;
    found := At(s, i) != NUL && At(s, i) in toks;
  }

  // ----- The parser ----------------------------------------------------------------------------

  datatype Outcome = Parsed(cmd: Cmd<Span>, ps: nat) | Failed(fault: Fault)

  datatype Listed = Read(list: seq<Target<Span>>, ps: nat) | Missing

  /** The parser and the grammar agree: same tree, same tokens left, or the same panic. */
  ghost predicate Agrees(s: string, from: nat, r: Outcome, g: Parse) {
    match r
    case Parsed(c, ps) =>
      from <= ps <= |s| && CString(s) && g == Done(TextOf(s, c), Lex(s, ps)) && AllWords(s, c)
    case Failed(fault) => g == Panic(fault)
  }

  /** What the grammar answers when `list` was read already. */
  function Prepend(list: seq<Target<string>>, g: Targets): Targets {
    if g.NoFile? then g else Files(list + g.list, g.rest)
  }

  lemma PrependOne(s: string, list: seq<Target<Span>>, file: Span, mode: Mode, g: Targets)
    ensures Prepend(TargetTexts(s, list),
                    if g.NoFile? then g else Files([Target(Slice(s, file), mode)] + g.list, g.rest))
            == Prepend(TargetTexts(s, list + [Target(file, mode)]), g)
  {
    if g.Files? {
      assert TargetTexts(s, list + [Target(file, mode)]) == TargetTexts(s, list) + [Target(Slice(s, file), mode)];
      assert TargetTexts(s, list) + ([Target(Slice(s, file), mode)] + g.list)
        == TargetTexts(s, list + [Target(file, mode)]) + g.list;
    }
  }

  /** `parseredirs` (sh.c:569-592); the command is wrapped by the caller. */
  method ReadRedirs(s: string, ps: nat) returns (r: Listed)
    requires ps <= |s| && CString(s)
    ensures r.Read? ==> ps <= r.ps <= |s| && TargetWords(s, r.list)
    ensures r.Read? ==> ParseRedirs(Lex(s, ps)) == Files(TargetTexts(s, r.list), Lex(s, r.ps))
    ensures r.Missing? ==> ParseRedirs(Lex(s, ps)) == NoFile
  {
    hide Lex, IsWord, Slice, TargetTexts;
    var list: seq<Target<Span>> := [];
    var i, more := Peek(s, ps, {'<', '>'});
    EmptyTexts(s);
    assert Prepend(TargetTexts(s, list), ParseRedirs(Lex(s, i))) == ParseRedirs(Lex(s, ps));
    assert {'<', '>'} + {'+'} == {'<', '>', '+'};
    while more
      invariant ps <= i <= |s| && TargetWords(s, list)
      invariant more <==> Starts(Lex(s, i), {'<', '>', '+'})
      invariant Prepend(TargetTexts(s, list), ParseRedirs(Lex(s, i))) == ParseRedirs(Lex(s, ps))
      decreases |s| - i
    {
      ghost var ts := Lex(s, i);
      var tok, q0, eq0, i1 := GetToken(s, i);
      var ret, q, eq, i2 := GetToken(s, i1);
      if ret != 'a' {
        return Missing;
      }
      assert ts[2..] == ts[1..][1..] && ts[1] == ts[1..][0];
      PrependOne(s, list, Span(q, eq), ModeOf(tok), ParseRedirs(ts[2..]));
      list := list + [Target(Span(q, eq), ModeOf(tok))];
      i, more := Peek(s, i2, {'<', '>'});
    }
    AppendTexts(s, list, ParseRedirs(Lex(s, i)));
    return Read(list, i);
  }

  lemma EmptyTexts(s: string)
    ensures forall g: Targets :: Prepend(TargetTexts(s, []), g) == g
  {
    forall g: Targets ensures Prepend(TargetTexts(s, []), g) == g {
      if g.Files? { assert TargetTexts(s, []) + g.list == g.list; }
    }
  }

  lemma AppendTexts(s: string, list: seq<Target<Span>>, g: Targets)
    requires g.Files? && g.list == []
    ensures Prepend(TargetTexts(s, list), g) == Files(TargetTexts(s, list), g.rest)
  {
  }

  /** `parseline` (sh.c:539-554). */
  method ReadLine(s: string, ps: nat) returns (r: Outcome)
    requires ps <= |s| && CString(s)
    ensures Agrees(s, ps, r, ParseLine(Lex(s, ps)))
    decreases |s| - ps, 4
  {
    hide Lex, AllWords, TextOf;
    r := ReadPipe(s, ps);
    if r.Failed? {
      return;
    }
    var cmd := r.cmd;
    ghost var first, rest := TextOf(s, r.cmd), Lex(s, r.ps);
    var i, back := Peek(s, r.ps, {'&'});
    while back
      invariant ps <= i <= |s| && AllWords(s, cmd)
      invariant back <==> Starts(Lex(s, i), {'&'})
      invariant ParseBacks(TextOf(s, cmd), Lex(s, i)) == ParseBacks(first, rest)
      decreases |s| - i
    {
      var tok, q, eq, i1 := GetToken(s, i);
      BackText(s, cmd);
      cmd := Back(cmd);
      i, back := Peek(s, i1, {'&'});
    }
    var j, more := Peek(s, i, {';'});
    if more {
      var tok, q, eq, j1 := GetToken(s, j);
      r := ReadLine(s, j1);
      if r.Parsed? {
        ListText(s, cmd, r.cmd);
        r := Parsed(List(cmd, r.cmd), r.ps);
      }
    } else {
      r := Parsed(cmd, j);
    }
  }

  lemma BackText(s: string, c: Cmd<Span>)
    ensures TextOf(s, Back(c)) == Back(TextOf(s, c)) && (AllWords(s, Back(c)) <==> AllWords(s, c))
  {
  }

  lemma ListText(s: string, c: Cmd<Span>, d: Cmd<Span>)
    ensures TextOf(s, List(c, d)) == List(TextOf(s, c), TextOf(s, d))
    ensures AllWords(s, c) && AllWords(s, d) ==> AllWords(s, List(c, d)) && AllWords(s, Pipe(c, d))
    ensures TextOf(s, Pipe(c, d)) == Pipe(TextOf(s, c), TextOf(s, d))
  {
  }

  /** `parsepipe` (sh.c:556-567). */
  method ReadPipe(s: string, ps: nat) returns (r: Outcome)
    requires ps <= |s| && CString(s)
    ensures Agrees(s, ps, r, ParsePipe(Lex(s, ps)))
    decreases |s| - ps, 3
  {
    hide Lex, AllWords, TextOf;
    r := ReadExec(s, ps);
    if r.Failed? {
      return;
    }
    var cmd := r.cmd;
    var i, more := Peek(s, r.ps, {'|'});
    if more {
      var tok, q, eq, i1 := GetToken(s, i);
      r := ReadPipe(s, i1);
      if r.Parsed? {
        ListText(s, cmd, r.cmd);
        r := Parsed(Pipe(cmd, r.cmd), r.ps);
      }
    } else {
      r := Parsed(cmd, i);
    }
  }

  /** `parseblock` (sh.c:594-608). */
  method ReadBlock(s: string, ps: nat) returns (r: Outcome)
    requires ps <= |s| && CString(s) && Starts(Lex(s, ps), {'('})
    ensures Agrees(s, ps, r, ParseBlock(Lex(s, ps)))
    decreases |s| - ps, 1
  {
    hide Lex, AllWords, TextOf, TargetTexts, TargetWords;
    var i, open := Peek(s, ps, {'('});
    var tok, q, eq, i1 := GetToken(s, i);
    r := ReadLine(s, i1);
    if r.Failed? {
      return;
    }
    var j, close := Peek(s, r.ps, {')'});
    if !close {
      return Failed(MissingParen);
    }
    var cmd := r.cmd;
    tok, q, eq, j := GetToken(s, j);
    var rs := ReadRedirs(s, j);
    if rs.Missing? {
      return Failed(MissingFile);
    }
    WrapText(s, cmd, rs.list);
    return Parsed(Wrap(cmd, rs.list), rs.ps);
  }

  lemma ExecText(s: string, args: seq<Span>, rs: seq<Target<Span>>)
    requires (forall i :: 0 <= i < |args| ==> IsWord(s, args[i])) && TargetWords(s, rs)
    ensures TextOf(s, Wrap(Exec(args), rs)) == Wrap(Exec(Texts(s, args)), TargetTexts(s, rs))
    ensures AllWords(s, Wrap(Exec(args), rs))
  {
    WrapText(s, Exec(args), rs);
  }

  lemma MoreTexts(s: string, args: seq<Span>, w: Span, rs: seq<Target<Span>>, more: seq<Target<Span>>)
    ensures Texts(s, args + [w]) == Texts(s, args) + [Slice(s, w)]
    ensures TargetTexts(s, rs + more) == TargetTexts(s, rs) + TargetTexts(s, more)
    ensures TargetWords(s, rs) && TargetWords(s, more) ==> TargetWords(s, rs + more)
  {
  }

  /** `parseexec` (sh.c:610-641). */
  method ReadExec(s: string, ps: nat) returns (r: Outcome)
    requires ps <= |s| && CString(s)
    ensures Agrees(s, ps, r, ParseExec(Lex(s, ps)))
    decreases |s| - ps, 2
  {
    hide Lex, AllWords, TextOf, TargetTexts, TargetWords, Texts, IsWord, Slice;
    var i, open := Peek(s, ps, {'('});
    if open {
      r := ReadBlock(s, i);
      return;
    }
    var args: seq<Span>, rs: seq<Target<Span>> := [], [];
    var l := ReadRedirs(s, i);
    if l.Missing? {
      return Failed(MissingFile);
    }
    rs := l.list;
    NoTexts(s);
    var stop;
    i, stop := Peek(s, l.ps, {'|', ')', '&', ';'});
    while !stop
      invariant ps <= i <= |s| && TargetWords(s, rs) && |args| < MAXARGS
      invariant forall k :: 0 <= k < |args| ==> IsWord(s, args[k])
      invariant stop <==> Starts(Lex(s, i), {'|', ')', '&', ';'})
      invariant ParseWords(Texts(s, args), TargetTexts(s, rs), Lex(s, i)) == ParseExec(Lex(s, ps))
      decreases |s| - i
    {
      ghost var ts := Lex(s, i);
      var tok, q, eq, i1 := GetToken(s, i);
      if tok == NUL {
        break;
      }
      if tok != 'a' {
        return Failed(Syntax);
      }
      TextsSize(s, args);
      if |args| + 1 >= MAXARGS {
        return Failed(TooManyArgs);
      }
      l := ReadRedirs(s, i1);
      if l.Missing? {
        return Failed(MissingFile);
      }
      MoreTexts(s, args, Span(q, eq), rs, l.list);
      args, rs := args + [Span(q, eq)], rs + l.list;
      i, stop := Peek(s, l.ps, {'|', ')', '&', ';'});
    }
    ExecText(s, args, rs);
    return Parsed(Wrap(Exec(args), rs), i);
  }

  lemma NoTexts(s: string)
    ensures Texts(s, []) == []
  {
  }

  lemma TextsSize(s: string, args: seq<Span>)
    ensures |Texts(s, args)| == |args|
  {
  }

  /** `parsecmd` (sh.c:522-537) up to `nulterminate`. */
  method ReadCmd(s: string) returns (r: Outcome)
    requires CString(s)
    ensures r.Parsed? ==> ParseAll(Lex(s, 0)) == Done(TextOf(s, r.cmd), []) && AllWords(s, r.cmd)
    ensures r.Failed? ==> ParseAll(Lex(s, 0)) == Panic(r.fault)
  {
    hide Lex, AllWords, TextOf;
    r := ReadLine(s, 0);
    if r.Parsed? {
      var i, found := Peek(s, r.ps, {});
      if i != |s| {
        r := Failed(Syntax);
      }
    }
  }

  // ----- nulterminate --------------------------------------------------------------------------

  function Ends(c: Cmd<Span>): set<nat> {
    match c
    case Exec(argv) => set i | 0 <= i < |argv| :: argv[i].eq
    case Redir(cmd, file, _) => Ends(cmd) + {file.eq}
    case Pipe(left, right) => Ends(left) + Ends(right)
    case List(left, right) => Ends(left) + Ends(right)
    case Back(cmd) => Ends(cmd)
  }

  predicate Below(ends: set<nat>, n: nat) { forall e :: e in ends ==> e < n }

  /** `b` is `a` with NUL written at the positions of `ends`. */
  ghost predicate NulAt(a: seq<char>, b: seq<char>, ends: set<nat>) {
    |a| == |b| && forall k :: 0 <= k < |a| ==> b[k] == if k in ends then NUL else a[k]
  }

  lemma NulTwice(a: seq<char>, b: seq<char>, c: seq<char>, e: set<nat>, f: set<nat>)
    requires NulAt(a, b, e) && NulAt(b, c, f)
    ensures NulAt(a, c, e + f)
  {
  }

  /** `nulterminate` (sh.c:644-688) writes a NUL behind every word of the command, and nothing else. */
  method NulTerminate(buf: array<char>, c: Cmd<Span>)
    requires Below(Ends(c), buf.Length)
    modifies buf
    ensures NulAt(old(buf[..]), buf[..], Ends(c))
    decreases c
  {
    match c
    case Exec(argv) =>
      assert forall j :: 0 <= j < |argv| ==> argv[j].eq in Ends(c);
      var i := 0;
      while i < |argv|
        invariant 0 <= i <= |argv|
        invariant forall k :: 0 <= k < buf.Length ==>
          buf[k] == if k in (set j | 0 <= j < i :: argv[j].eq) then NUL else old(buf[k])
      {
        buf[argv[i].eq] := NUL;
        i := i + 1;
      }
    case Redir(cmd, file, _) =>
      assert Ends(c) == Ends(cmd) + {file.eq};
      NulTerminate(buf, cmd);
      ghost var mid := buf[..];
      buf[file.eq] := NUL;
      NulTwice(old(buf[..]), mid, buf[..], Ends(cmd), {file.eq});
    case Pipe(left, right) =>
      assert Ends(c) == Ends(left) + Ends(right);
      NulTerminate(buf, left);
      ghost var mid := buf[..];
      NulTerminate(buf, right);
      NulTwice(old(buf[..]), mid, buf[..], Ends(left), Ends(right));
    case List(left, right) =>
      assert Ends(c) == Ends(left) + Ends(right);
      NulTerminate(buf, left);
      ghost var mid := buf[..];
      NulTerminate(buf, right);
      NulTwice(old(buf[..]), mid, buf[..], Ends(left), Ends(right));
    case Back(cmd) =>
      assert Ends(c) == Ends(cmd);
      NulTerminate(buf, cmd);
  }

  lemma {:induction false} EndsOfSpans(c: Cmd<Span>, e: nat)
    requires e in Ends(c)
    ensures exists w :: w in Spans(c) && w.eq == e
  {
    match c
    case Exec(argv) =>
      var i :| 0 <= i < |argv| && argv[i].eq == e;
      assert argv[i] in Spans(c);
    case Redir(cmd, file, _) =>
      if e == file.eq { assert file in Spans(c); } else { EndsOfSpans(cmd, e); }
    case Pipe(left, right) =>
      if e in Ends(left) { EndsOfSpans(left, e); } else { EndsOfSpans(right, e); }
    case List(left, right) =>
      if e in Ends(left) { EndsOfSpans(left, e); } else { EndsOfSpans(right, e); }
    case Back(cmd) => EndsOfSpans(cmd, e);
  }

  lemma {:induction false} SpanEnds(c: Cmd<Span>, w: Span)
    requires w in Spans(c)
    ensures w.eq in Ends(c)
  {
    match c
    case Exec(argv) =>
    case Redir(cmd, file, _) => if w != file { SpanEnds(cmd, w); }
    case Pipe(left, right) => if w in Spans(left) { SpanEnds(left, w); } else { SpanEnds(right, w); }
    case List(left, right) => if w in Spans(left) { SpanEnds(left, w); } else { SpanEnds(right, w); }
    case Back(cmd) => SpanEnds(cmd, w);
  }

  /** The C string that starts at `q` is `t`. */
  ghost predicate Reads(buf: seq<char>, q: nat, t: string) {
    q + |t| < |buf| && buf[q..q + |t|] == t && buf[q + |t|] == NUL && CString(t)
  }

  /** In the buffer `nulterminate` leaves behind, every word of the parsed command reads as the word
      itself: no NUL falls into another word, although words may touch symbols. */
  lemma WordsReadBack(s: string, c: Cmd<Span>, buf: seq<char>, w: Span)
    requires CString(s) && AllWords(s, c) && w in Spans(c) && NulAt(s + [NUL], buf, Ends(c))
    ensures Reads(buf, w.q, Slice(s, w))
  {
    SpanEnds(c, w);
    forall e | e in Ends(c) ensures e <= |s| && (e < |s| ==> !WordChar(s[e])) {
      EndsOfSpans(c, e);
    }
    assert IsWord(s, w);
    assert forall k :: w.q <= k < w.eq ==> WordChar(s[k]) && k !in Ends(c);
    assert buf[w.q..w.eq] == s[w.q..w.eq];
  }

  lemma EndsInside(s: string, c: Cmd<Span>)
    requires AllWords(s, c)
    ensures Below(Ends(c), |s| + 1)
  {
    forall e | e in Ends(c) ensures e < |s| + 1 {
      EndsOfSpans(c, e);
    }
  }

  /** `parsecmd` on a buffer (sh.c:522-537): the tree the grammar gives, each of its words a C string in place. */
  method ParseCmd(buf: array<char>) returns (r: Outcome)
    requires buf.Length > 0 && CString(buf[..buf.Length - 1]) && buf[buf.Length - 1] == NUL
    modifies buf
    ensures r.Parsed? ==>
      ParseAll(Lex(old(buf[..buf.Length - 1]), 0)) == Done(TextOf(old(buf[..buf.Length - 1]), r.cmd), [])
    ensures r.Parsed? ==> forall w :: w in Spans(r.cmd) ==> Reads(buf[..], w.q, Slice(old(buf[..buf.Length - 1]), w))
    ensures r.Failed? ==> ParseAll(Lex(old(buf[..buf.Length - 1]), 0)) == Panic(r.fault) && buf[..] == old(buf[..])
  {
    hide Lex, AllWords, TextOf, Reads, NulAt, Slice;
    var s := buf[..buf.Length - 1];
    assert buf[..] == s + [NUL];
    r := ReadCmd(s);
    if r.Parsed? {
      EndsInside(s, r.cmd);
      NulTerminate(buf, r.cmd);
      forall w | w in Spans(r.cmd) ensures Reads(buf[..], w.q, Slice(s, w)) {
        WordsReadBack(s, r.cmd, buf[..], w);
      }
    }
  }

  // ----- Printing ------------------------------------------------------------------------------

  function TokText(t: Tok): string {
    match t
    case Word(w) => w
    case Sym(c) => if c == '+' then ">>" else [c]
  }

  function Render(ts: seq<Tok>): string {
    if ts == [] then "" else TokText(ts[0]) + " " + Render(ts[1..])
  }

  ghost predicate CleanWord(w: string) {
    w != [] && forall k :: 0 <= k < |w| ==> WordChar(w[k])
  }

  ghost predicate CleanTok(t: Tok) {
    match t
    case Word(w) => CleanWord(w)
    case Sym(c) => c == '+' || Symbol(c)
  }

  ghost predicate Clean(ts: seq<Tok>) { forall i :: 0 <= i < |ts| ==> CleanTok(ts[i]) }

  lemma {:induction false} WordEndIs(s: string, i: nat, e: nat)
    requires i <= e <= |s| && (forall k :: i <= k < e ==> WordChar(s[k])) && (e < |s| ==> !WordChar(s[e]))
    ensures WordEnd(s, i) == e
    decreases e - i
  {
    if i < e { WordEndIs(s, i + 1, e); }
  }

  /** A token and the space behind it are lexed as that token. */
  lemma LexOne(s: string, i: nat, t: Tok)
    requires CString(s) && CleanTok(t) && i + |TokText(t)| < |s| && s[i..i + |TokText(t)|] == TokText(t)
    requires s[i + |TokText(t)|] == ' '
    ensures Lex(s, i) == [t] + Lex(s, i + |TokText(t)| + 1)
  {
    var text, e := TokText(t), i + |TokText(t)|;
    assert forall k :: 0 <= k < |text| ==> s[i + k] == s[i..e][k];
    if t.Word? {
      assert forall k :: i <= k < e ==> s[k] == text[k - i];
      WordEndIs(s, i, e);
    } else {
      assert s[i] == text[0];
      assert t.c == '+' ==> s[i + 1] == text[1];
    }
    assert TokenAt(s, i) == t && TokenEnd(s, i) == e;
    assert Skip(s, e) == Skip(s, e + 1);
    LexSkip(s, e);
    LexSkip(s, e + 1);
  }

  lemma Cut(s: string, i: nat, text: string, rest: string)
    requires i <= |s| && s[i..] == text + " " + rest
    ensures i + |text| < |s| && s[i..i + |text|] == text && s[i + |text|] == ' ' && s[i + |text| + 1..] == rest
  {
    var e := i + |text|;
    assert s[i..e] == s[i..][..|text|];
    assert s[e] == s[i..][|text|];
    assert s[e + 1..] == s[i..][|text| + 1..];
  }

  lemma {:induction false} LexRender(s: string, i: nat, ts: seq<Tok>)
    requires CString(s) && Clean(ts) && i <= |s| && s[i..] == Render(ts)
    ensures Lex(s, i) == ts
    decreases |ts|
  {
    hide Render, TokText, CString, Clean, CleanTok, Lex;
    RenderStep(ts);
    if ts == [] {
      LexEnd(s, i);
    } else {
      Cut(s, i, TokText(ts[0]), Render(ts[1..]));
      LexOne(s, i, ts[0]);
      LexRender(s, i + |TokText(ts[0])| + 1, ts[1..]);
      assert [ts[0]] + ts[1..] == ts;
    }
  }

  lemma RenderStep(ts: seq<Tok>)
    requires Clean(ts)
    ensures ts == [] ==> Render(ts) == ""
    ensures ts != [] ==> Render(ts) == TokText(ts[0]) + " " + Render(ts[1..]) && CleanTok(ts[0]) && Clean(ts[1..])
  {
  }

  lemma LexEnd(s: string, i: nat)
    requires CString(s) && i <= |s| && s[i..] == ""
    ensures Lex(s, i) == []
  {
  }

  lemma {:induction false} RenderCString(ts: seq<Tok>)
    requires Clean(ts)
    ensures CString(Render(ts))
    decreases |ts|
  {
    if ts != [] {
      assert CleanTok(ts[0]);
      RenderCString(ts[1..]);
    }
  }

  /** Every word of the command can be written without quoting. */
  ghost predicate CleanCmd(c: Cmd<string>) {
    match c
    case Exec(argv) => forall i :: 0 <= i < |argv| ==> CleanWord(argv[i])
    case Redir(cmd, file, _) => CleanCmd(cmd) && CleanWord(file)
    case Pipe(left, right) => CleanCmd(left) && CleanCmd(right)
    case List(left, right) => CleanCmd(left) && CleanCmd(right)
    case Back(cmd) => CleanCmd(cmd)
  }

  lemma CleanCat(a: seq<Tok>, b: seq<Tok>)
    requires Clean(a) && Clean(b)
    ensures Clean(a + b)
  {
  }

  lemma CleanSym(c: char)
    requires c == '+' || Symbol(c)
    ensures Clean([Sym(c)])
  {
  }

  lemma {:induction false} BareClean(c: Cmd<string>)
    requires CleanCmd(c)
    ensures Clean(Bare(c))
    decreases c, 0
  {
    match c
    case Exec(argv) =>
    case Redir(cmd, file, mode) =>
      TokensClean(cmd, 0);
      CleanCat(Tokens(cmd, 0), [Sym(SymOf(mode)), Word(file)]);
    case Pipe(left, right) =>
      TokensClean(left, 0);
      TokensClean(right, 1);
      CleanSym('|');
      CleanCat(Tokens(left, 0), [Sym('|')]);
      CleanCat(Tokens(left, 0) + [Sym('|')], Tokens(right, 1));
    case List(left, right) =>
      TokensClean(left, 2);
      TokensClean(right, 3);
      CleanSym(';');
      CleanCat(Tokens(left, 2), [Sym(';')]);
      CleanCat(Tokens(left, 2) + [Sym(';')], Tokens(right, 3));
    case Back(cmd) =>
      TokensClean(cmd, 2);
      CleanSym('&');
      CleanCat(Tokens(cmd, 2), [Sym('&')]);
  }

  lemma {:induction false} TokensClean(c: Cmd<string>, max: nat)
    requires CleanCmd(c)
    ensures Clean(Tokens(c, max))
    decreases c, 1
  {
    BareClean(c);
    CleanSym('(');
    CleanSym(')');
    CleanCat([Sym('(')], Bare(c));
    CleanCat([Sym('(')] + Bare(c), [Sym(')')]);
    hide Clean, Symbol;
  }

  /** The command line of a command. */
  function Print(c: Cmd<string>): string { Render(Tokens(c, 3)) }

  /** Printing any command of 0 to 9 plain words a piece and parsing it gives the same command. */
  lemma {:induction false} PrintThenParse(c: Cmd<string>)
    requires Fits(c) && CleanCmd(c)
    ensures CString(Print(c)) && ParseAll(Lex(Print(c), 0)) == Done(c, [])
  {
    TokensClean(c, 3);
    RenderCString(Tokens(c, 3));
    assert Print(c)[0..] == Print(c);
    LexRender(Print(c), 0, Tokens(c, 3));
    TokensRoundTrip(c);
  }
}
