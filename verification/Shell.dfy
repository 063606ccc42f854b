/**
  The shell's recursive-descent parser over a line, and nulterminate over the line's buffer.
  `text` is the line up to its terminating NUL. A panic ends the shell's parsing; it is returned
  with its cause and the place in the line.
 */
module Shell {
  import opened ShellSpec
  import opened ShellGrammar

  datatype Fault = NoFile | NotWord | TooManyArgs | NoParen | Leftovers

  datatype Result = Ok(cmd: Cmd) | Panic(why: Fault, at: nat)

  function CharAt(text: string, s: nat): char {
    if s < |text| then text[s] else NUL
  }

  // ------------------------------------------------------------------------ tokens

  /** The loops over white space in gettoken and peek. */
  method SkipSpace(text: string, s: nat) returns (r: nat)
    requires s <= |text|
    ensures r == SkipTo(text, s) && Blank(text, s, r) && AtStop(text, r) && Bag(text, s) == Bag(text, r)
  {
    r := s;
    while r < |text| && IsSpace(text[r])
      invariant s <= r <= |text| && Blank(text, s, r)
    {
      r := r + 1;
    }
    SkipIs(text, s, r);
    BagBlank(text, s, r);
  }

  /** What a token of kind `tok` at `q..e` contributes to the line's tokens. */
  ghost function TokBag(tok: char, q: nat, e: nat): multiset<Tok> {
    if tok == NUL || IsParen(tok) then multiset{}
    else if tok == 'a' then multiset{Word(Slice(q, e))}
    else if tok == '+' then multiset{Sym('>'), Sym('>')}
    else multiset{Sym(tok)}
  }

  /** The token found at `q`, which is not white space, and its end. */
  ghost predicate TokenAt(text: string, tok: char, q: nat, e: nat) {
    && q <= e <= |text| && (tok == NUL <==> q == |text|) && (q < |text| ==> q < e && !IsSpace(text[q]))
    && (tok == 'a' <==> q < |text| && WordChar(text[q])) && (tok == 'a' ==> IsWord(text, q, e))
    && (tok == '+' ==> e == q + 2 && text[q] == '>' && text[q + 1] == '>')
    && (tok == '>' ==> !Symbol(text, q + 1, '>'))
    && (tok != NUL && tok != 'a' && tok != '+' ==> e == q + 1 && text[q] == tok && IsSymbol(tok))
    && Bag(text, q) == TokBag(tok, q, e) + Bag(text, e)
  }

  /** gettoken: the next token, where it starts and ends, and the cursor behind it. */
  method GetToken(text: string, s: nat) returns (tok: char, q: nat, e: nat, s': nat)
    requires s <= |text| && NUL !in text
    ensures s <= q <= e <= s' <= |text| && q == SkipTo(text, s) && TokenAt(text, tok, q, e) && s' == SkipTo(text, e)
    ensures Blank(text, s, q) && Blank(text, e, s') && AtStop(text, s') && (tok != NUL ==> s < s')
    ensures Bag(text, s) == TokBag(tok, q, e) + Bag(text, s')
  {
    hide Bag;
    q := SkipSpace(text, s);
    tok, e := Classify(text, q);
    s' := SkipSpace(text, e);
  }

  /** gettoken's switch. */
  method Classify(text: string, q: nat) returns (tok: char, e: nat)
    requires q <= |text| && NUL !in text && (q < |text| ==> !IsSpace(text[q]))
    ensures TokenAt(text, tok, q, e)
  {
    hide TokenAt;
    tok, e := CharAt(text, q), q;
    if q == |text| {
      EndToken(text);
    } else if tok == '|' || tok == '(' || tok == ')' || tok == ';' || tok == '&' || tok == '<' {
      SymbolToken(text, q);
      e := q + 1;
    } else if tok == '>' {
      e := q + 1;
      if CharAt(text, e) == '>' {
        AppendToken(text, q);
        tok := '+';
        e := e + 1;
      } else {
        SymbolToken(text, q);
      }
    } else {
      tok := 'a';
      while e < |text| && WordChar(text[e])
        invariant q <= e <= |text| && forall k :: q <= k < e ==> WordChar(text[k])
      {
        e := e + 1;
      }
      WordToken(text, q, e);
    }
  }

  lemma EndToken(text: string)
    ensures TokenAt(text, NUL, |text|, |text|)
  {
  }

  lemma SymbolToken(text: string, q: nat)
    requires q < |text| && IsSymbol(text[q]) && (text[q] == '>' ==> !Symbol(text, q + 1, '>'))
    ensures TokenAt(text, text[q], q, q + 1)
  {
    SymbolBag(text, q);
  }

  lemma AppendToken(text: string, q: nat)
    requires q + 1 < |text| && text[q] == '>' && text[q + 1] == '>'
    ensures TokenAt(text, '+', q, q + 2)
  {
    hide Bag;
    SymbolBag(text, q);
    SymbolBag(text, q + 1);
    assert TokBag('+', q, q + 2) == TokBag('>', q, q + 1) + TokBag('>', q + 1, q + 2);
  }

  lemma WordToken(text: string, q: nat, e: nat)
    requires IsWord(text, q, e)
    ensures TokenAt(text, 'a', q, e)
  {
    hide Bag;
    BagWord(text, q, e);
  }

  lemma SymbolBag(text: string, q: nat)
    requires q < |text| && IsSymbol(text[q])
    ensures Bag(text, q) == TokBag(text[q], q, q + 1) + Bag(text, q + 1)
  {
    hide Bag;
    if IsParen(text[q]) { BagSkip(text, q); } else { BagSymbol(text, q); }
  }

  /** peek: whether the next character is one of `toks`. */
  method Peek(text: string, s: nat, toks: string) returns (found: bool, r: nat)
    requires s <= |text|
    ensures r == SkipTo(text, s) && Blank(text, s, r) && AtStop(text, r) && Bag(text, s) == Bag(text, r)
    ensures found <==> r < |text| && text[r] in toks
  {
    r := SkipSpace(text, s);
    found := r < |text| && text[r] in toks;
  }

  // ------------------------------------------------------------------------ faults

  /** What the line shows when a panic is raised at `at`. */
  ghost predicate Evidence(text: string, why: Fault, at: nat) {
    && at <= |text|
    && match why
       case NoFile => (at < |text| ==> IsSymbol(text[at])) && exists p :: 0 <= p < at && RedirAt(text, p, at)
       case NotWord => at < |text| && text[at] == '(' && exists p :: 0 <= p < at && WordChar(text[p]) && Blank(text, p + 1, at)
       case TooManyArgs => exists items, s :: ItemsAt(text, items, s, at) && |Args(items)| == MAXARGS
       case NoParen => (at < |text| ==> text[at] != ')') && exists p :: 0 <= p < at && text[p] == '('
       case Leftovers => at < |text| && !IsSpace(text[at]) && exists p :: 0 <= p <= at && (text[p] == ')' || text[p] == '&')
  }

  /** A redirection symbol at `p` with nothing but white space and its second half up to `at`. */
  ghost predicate RedirAt(text: string, p: nat, at: nat) {
    && p < at <= |text| && (text[p] == '<' || text[p] == '>')
    && forall k :: p < k < at ==> IsSpace(text[k]) || text[k] == '>'
  }

  /** A line without symbols can only fail by having ten words. */
  lemma PlainLineFaults(text: string, why: Fault, at: nat)
    requires Evidence(text, why, at) && NoSymbols(text)
    ensures why == TooManyArgs
  {
    match why
    case NoFile =>
      var p :| 0 <= p < at && RedirAt(text, p, at);
      assert IsSymbol(text[p]);
    case NotWord => assert IsSymbol(text[at]);
    case TooManyArgs =>
    case NoParen =>
      var p :| 0 <= p < at && text[p] == '(';
      assert IsSymbol(text[p]);
    case Leftovers =>
      var p :| 0 <= p <= at && (text[p] == ')' || text[p] == '&');
      assert IsSymbol(text[p]);
  }

  // ----------------------------------------------------------------------- the parser

  /** The cursor stands where something of this rank may end, or somewhere behind a closing parenthesis or a &. */
  ghost predicate Stops(text: string, c: nat, rank: Rank) {
    AtStop(text, c) && (Follows(text, c, rank) || EndedBefore(text, c))
  }

  ghost predicate EndedBefore(text: string, c: nat) {
    exists p :: 0 <= p < c && p < |text| && (text[p] == ')' || text[p] == '&')
  }

  /**
    What a parsing method promises: its command is that of a tree the grammar derives from the
    stretch read, or the line shows why there is none; and no other reading exists from here.
   */
  ghost predicate Parsed(text: string, s: nat, rank: Rank, res: Result, s': nat, tree: Tree) {
    && Complete(text, s, rank, res.Ok?, tree, s')
    && match res
       case Ok(cmd) => cmd == CmdOf(tree) && s <= s' && Derives(text, tree, s, s', rank) && Stops(text, s', rank)
       case Panic(why, at) => Evidence(text, why, at)
  }

  /** parseredirs: the redirections at the cursor, added in order to those read before. */
  method ParseRedirs(text: string, s: nat, rs: seq<Redirection>, ghost items: seq<Item>, ghost lo: nat)
    returns (ok: bool, all: seq<Redirection>, s': nat, ghost its: seq<Item>, ghost c: nat)
    requires s <= |text| && NUL !in text && ItemsAt(text, items, lo, s) && Redirs(items) == rs
    ensures s <= c <= |text| && ItemsAt(text, its, lo, c) && AtStop(text, c) && Redirs(its) == all && Args(its) == Args(items)
    ensures |items| <= |its| && (its == items ==> c == SkipTo(text, s))
    ensures ok ==> s' == c && (c < |text| ==> text[c] != '<' && text[c] != '>')
    ensures !ok ==> BadRedir(text, c) && Evidence(text, NoFile, s')
  {
    hide Bag, ItemsAt, Args, Redirs, TokenAt, TokBag, Blank, Evidence, SymbolEnd, BadRedir, SkipTo;
    all, its := rs, items;
    var found;
    found, s' := Peek(text, s, "<>");
    ItemsOn(text, items, lo, s, s');
    c := s';
    while found
      invariant s <= c == s' <= |text| && AtStop(text, c) && (found <==> c < |text| && (text[c] == '<' || text[c] == '>'))
      invariant ItemsAt(text, its, lo, c) && Redirs(its) == all && Args(its) == Args(items)
      invariant |items| <= |its| && (its == items ==> c == SkipTo(text, s))
      decreases |text| - c
    {
      var tok, q0, e0, next := GetToken(text, s');
      var dir := if tok == '<' then In else if tok == '>' then Out else Append;
      RedirSymbol(text, c, tok, q0, e0, dir);
      var kind, q, e, after := GetToken(text, next);
      FileNext(text, e0, next, q);
      if kind != 'a' {
        FileMissing(text, c, dir, next, kind, q, e);
        return false, all, q, its, c;
      }
      IsFile(text, q, e);
      found, s' := Peek(text, after, "<>");
      BlankTrans(text, e, after, s');
      AddRedirection(text, its, lo, c, Slice(q, e), dir, s');
      all, its := all + [Redirection(Slice(q, e), dir)], its + [Red(c, Slice(q, e), dir)];
      c := s';
    }
    return true, all, s', its, c;
  }

  lemma RedirSymbol(text: string, p: nat, tok: char, q0: nat, e0: nat, dir: Direction)
    requires p < |text| && (text[p] == '<' || text[p] == '>') && Blank(text, p, q0) && TokenAt(text, tok, q0, e0)
    requires dir == if tok == '<' then In else if tok == '>' then Out else Append
    ensures q0 == p < e0 && e0 == SymbolEnd(text, p, dir)
  {
    hide Bag;
    StayPut(text, p, q0);
  }

  lemma FileNext(text: string, e0: nat, next: nat, q: nat)
    requires Blank(text, e0, next) && AtStop(text, next) && Blank(text, next, q)
    ensures q == next && Blank(text, e0, q)
  {
    StayPut(text, next, q);
  }

  lemma IsFile(text: string, q: nat, e: nat)
    requires TokenAt(text, 'a', q, e)
    ensures IsWord(text, q, e)
  {
    hide Bag;
  }

  lemma FileMissing(text: string, p: nat, dir: Direction, next: nat, kind: char, q: nat, e: nat)
    requires p < |text| && (text[p] == '<' || text[p] == '>') && p < SymbolEnd(text, p, dir) <= |text|
    requires next == q == SkipTo(text, SymbolEnd(text, p, dir)) && TokenAt(text, kind, q, e) && kind != 'a'
    ensures BadRedir(text, p) && Evidence(text, NoFile, q)
  {
    hide Bag, SkipTo;
    forall d | 0 < SymbolEnd(text, p, d) <= |text| ensures var x := SkipTo(text, SymbolEnd(text, p, d)); !(x < |text| && WordChar(text[x])) {
      OneDirection(text, p, dir, d);
    }
    SkipBlank(text, SymbolEnd(text, p, dir));
    assert RedirAt(text, p, q);
  }

  // ------------------------------------------------------------------- one command

  /** The cursor is behind a word and white space. */
  ghost predicate BehindWord(text: string, c: nat) {
    exists p :: 0 <= p < c && p < |text| && WordChar(text[p]) && Blank(text, p + 1, c)
  }

  lemma BehindItems(text: string, items: seq<Item>, s: nat, c: nat)
    requires ItemsAt(text, items, s, c) && items != []
    ensures BehindWord(text, c)
  {
    var w := items[|items| - 1].w;
    assert WordChar(text[w.e - 1]) && Blank(text, w.e - 1 + 1, c);
  }

  /** What is read between the arguments of a command that does not begin with a parenthesis. */
  ghost predicate ExecRead(text: string, s: nat, its: seq<Item>, c: nat) {
    && s <= c && s <= |text| && ItemsAt(text, its, s, c) && AtStop(text, c) && !Symbol(text, SkipTo(text, s), '(')
    && (c < |text| ==> text[c] != '<' && text[c] != '>') && (its == [] ==> c == SkipTo(text, s))
  }

  lemma ExecDone(text: string, s: nat, its: seq<Item>, c: nat)
    requires ExecRead(text, s, its, c) && |Args(its)| < MAXARGS && Follows(text, c, ExecRank)
    ensures Parsed(text, s, ExecRank, Ok(Wrap(Exec(Args(its)), Redirs(its))), c, Simple(its))
  {
    hide ItemsAt, Complete;
    SimpleComplete(text, its, s, c);
  }

  lemma NotWordHere(text: string, s: nat, its: seq<Item>, c: nat, tok: char, e: nat, tree: Tree, end: nat)
    requires ExecRead(text, s, its, c) && TokenAt(text, tok, c, e) && tok != 'a' && tok != NUL && text[c] !in "|)&;"
    ensures Parsed(text, s, ExecRank, Panic(NotWord, c), end, tree)
  {
    hide Bag, ItemsAt, Complete, Derives;
    SimpleFails(text, its, s, c);
    BehindItems(text, its, s, c);
  }

  lemma TenWords(text: string, s: nat, its: seq<Item>, c: nat, e: nat, tree: Tree, end: nat)
    requires ExecRead(text, s, its, c) && TokenAt(text, 'a', c, e) && |Args(its)| + 1 == MAXARGS
    ensures Parsed(text, s, ExecRank, Panic(TooManyArgs, e), end, tree)
  {
    hide Bag, ItemsAt, Complete, Derives, Args;
    TooManyFails(text, its, s, c);
    AddWord(text, its, s, c, Slice(c, e), e);
  }

  lemma RedirFails(text: string, s: nat, its: seq<Item>, c: nat, at: nat, tree: Tree, end: nat)
    requires s <= |text| && ItemsAt(text, its, s, c) && AtStop(text, c) && !Symbol(text, SkipTo(text, s), '(') && BadRedir(text, c)
    requires Evidence(text, NoFile, at)
    ensures Parsed(text, s, ExecRank, Panic(NoFile, at), end, tree)
  {
    hide ItemsAt, Complete, Derives, Evidence;
    SimpleFails(text, its, s, c);
  }

  /** parseexec: a command with its arguments and redirections, or a block. */
  method ParseExec(text: string, s: nat) returns (res: Result, s': nat, ghost tree: Tree)
    requires s <= |text| && NUL !in text
    ensures Parsed(text, s, ExecRank, res, s', tree)
    decreases |text| - s, 1
  {
    hide Bag, ItemsAt, Args, Redirs, TokenAt, TokBag, Blank, Evidence, Parsed, SkipTo, BadRedir, Wrap;
    tree := Simple([]);
    var found, c := Peek(text, s, "(");
    if found {
      res, s', tree := ParseBlock(text, c);
      FromLater(text, s, c, ExecRank, res, s', tree);
      return;
    }
    var argv: seq<Slice> := [];
    ghost var its: seq<Item> := [];
    ghost var p;
    Nothing(text, s, c);
    var ok, rs, at;
    ok, rs, at, its, p := ParseRedirs(text, c, [], [], s);
    if !ok {
      RedirFails(text, s, its, p, at, tree, at);
      return Panic(NoFile, at), at, tree;
    }
    SkipTwice(text, s);
    c := at;
    while true
      invariant s <= c <= |text| && ExecRead(text, s, its, c) && Args(its) == argv && Redirs(its) == rs && |argv| < MAXARGS
      decreases |text| - c
    {
      var stop, here := Peek(text, c, "|)&;");
      StayPut(text, c, here);
      if stop {
        break;
      }
      var tok, q, e, after := GetToken(text, c);
      TokenEnd(text, tok, c, q, e);
      if tok == NUL {
        break;
      }
      if tok != 'a' {
        NotWordHere(text, s, its, c, tok, e, tree, after);
        return Panic(NotWord, q), after, tree;
      }
      if |argv| + 1 >= MAXARGS {
        TenWords(text, s, its, c, e, tree, after);
        return Panic(TooManyArgs, e), after, tree;
      }
      IsFile(text, q, e);
      AddWord(text, its, s, c, Slice(q, e), after);
      ghost var more;
      ok, rs, at, more, p := ParseRedirs(text, after, rs, its + [Arg(Slice(q, e))], s);
      if !ok {
        RedirFails(text, s, more, p, at, tree, at);
        return Panic(NoFile, at), at, tree;
      }
      argv, its, c := argv + [Slice(q, e)], more, at;
    }
    ExecDone(text, s, its, c);
    return Ok(Wrap(Exec(argv), rs)), c, Simple(its);
  }

  lemma Nothing(text: string, s: nat, c: nat)
    requires Blank(text, s, c)
    ensures ItemsAt(text, [], s, c) && Args([]) == [] && Redirs([]) == []
  {
  }

  lemma SkipTwice(text: string, s: nat)
    requires s <= |text|
    ensures SkipTo(text, SkipTo(text, s)) == SkipTo(text, s)
  {
    SkipBlank(text, s);
    SkipIs(text, SkipTo(text, s), SkipTo(text, s));
  }

  lemma TokenEnd(text: string, tok: char, c: nat, q: nat, e: nat)
    requires TokenAt(text, tok, q, e) && c <= q && Blank(text, c, q) && AtStop(text, c)
    ensures q == c && (tok == NUL <==> c == |text|)
  {
    hide Bag;
    StayPut(text, c, q);
  }

  lemma FromLater(text: string, s: nat, c: nat, rank: Rank, res: Result, s': nat, tree: Tree)
    requires s <= |text| && c == SkipTo(text, s) && Blank(text, s, c) && Parsed(text, c, rank, res, s', tree)
    ensures Parsed(text, s, rank, res, s', tree)
  {
    hide Derives, Complete, Evidence;
    CompleteLower(text, s, rank, res.Ok?, tree, s');
    if res.Ok? { DerivesLower(text, tree, s, c, s', rank); }
  }

  // --------------------------------------------------------------- blocks, pipes, lists

  /** parseblock: a line in parentheses, with redirections behind it. */
  method ParseBlock(text: string, s: nat) returns (res: Result, s': nat, ghost tree: Tree)
    requires s < |text| && text[s] == '(' && NUL !in text
    ensures Parsed(text, s, ExecRank, res, s', tree)
    decreases |text| - s, 0
  {
    hide Bag, ItemsAt, Args, Redirs, TokenAt, TokBag, Blank, Evidence, Parsed, SkipTo, BadRedir, Wrap;
    var open, q0, e0, c0 := GetToken(text, s);
    SymbolHere(text, s, open, q0, e0);
    var c;
    res, c, tree := ParseLine(text, c0);
    if res.Panic? {
      BlockPanics(text, s, res, c, tree);
      return res, c, tree;
    }
    Bounds(text, c0, LineRank, res, c, tree);
    var found, c1 := Peek(text, c, ")");
    StayPut(text, c, c1);
    if !found {
      Unclosed(text, s, res, c, tree);
      return Panic(NoParen, c1), c1, tree;
    }
    var close, q1, e1, c2 := GetToken(text, c1);
    SymbolHere(text, c, close, q1, e1);
    Nothing(text, c + 1, c2);
    var ok, rs, c3;
    ghost var its, p;
    ok, rs, c3, its, p := ParseRedirs(text, c2, [], [], c + 1);
    if !ok {
      BlockFileMissing(text, s, res, c, tree, its, p, c3);
      return Panic(NoFile, c3), c3, tree;
    }
    BlockDone(text, s, res, c, tree, its, c3);
    return Ok(Wrap(res.cmd, rs)), c3, Block(s, tree, c, its);
  }

  lemma Bounds(text: string, s: nat, rank: Rank, res: Result, s': nat, tree: Tree)
    requires Parsed(text, s, rank, res, s', tree) && res.Ok?
    ensures s <= s' <= |text| && AtStop(text, s') && Stops(text, s', rank) && Complete(text, s, rank, true, tree, s')
    ensures res.cmd == CmdOf(tree) && Derives(text, tree, s, s', rank)
  {
    hide Derives, Complete;
  }

  lemma BlockPanics(text: string, s: nat, res: Result, c: nat, tree: Tree)
    requires Symbol(text, s, '(') && Parsed(text, SkipTo(text, s + 1), LineRank, res, c, tree) && res.Panic?
    ensures Parsed(text, s, ExecRank, res, c, tree)
  {
    hide Derives, Complete, Evidence;
    SkipIs(text, s, s);
    BlockFails(text, s, false, tree, c);
  }

  lemma Unclosed(text: string, s: nat, res: Result, c: nat, tree: Tree)
    requires Symbol(text, s, '(') && Parsed(text, SkipTo(text, s + 1), LineRank, res, c, tree) && res.Ok? && !Symbol(text, c, ')')
    ensures Parsed(text, s, ExecRank, Panic(NoParen, c), c, tree)
  {
    hide Derives, Complete, SkipTo;
    SkipIs(text, s, s);
    BlockFails(text, s, true, tree, c);
    assert text[s] == '(';
  }

  lemma BlockFileMissing(text: string, s: nat, res: Result, c: nat, tree: Tree, its: seq<Item>, p: nat, at: nat)
    requires Symbol(text, s, '(') && Parsed(text, SkipTo(text, s + 1), LineRank, res, c, tree) && res.Ok? && Symbol(text, c, ')')
    requires ItemsAt(text, its, c + 1, p) && AtStop(text, p) && BadRedir(text, p) && Evidence(text, NoFile, at)
    ensures Parsed(text, s, ExecRank, Panic(NoFile, at), at, tree)
  {
    hide Derives, Complete, ItemsAt, Evidence;
    SkipIs(text, s, s);
    BlockRedirFails(text, s, tree, c, its, p);
  }

  lemma BlockDone(text: string, s: nat, res: Result, c: nat, tree: Tree, its: seq<Item>, e: nat)
    requires Symbol(text, s, '(') && Parsed(text, SkipTo(text, s + 1), LineRank, res, c, tree) && res.Ok? && Symbol(text, c, ')')
    requires ItemsAt(text, its, c + 1, e) && Args(its) == [] && AtStop(text, e) && c < e && (e < |text| ==> text[e] != '<' && text[e] != '>')
    ensures Parsed(text, s, ExecRank, Ok(Wrap(res.cmd, Redirs(its))), e, Block(s, tree, c, its))
  {
    hide Complete, ItemsAt, Args, Redirs, SkipTo, Blank, Wrap;
    SkipIs(text, s, s);
    BlockComplete(text, s, tree, c, its, e);
    SkipBlank(text, s + 1);
    DerivesLower(text, tree, s + 1, SkipTo(text, s + 1), c, LineRank);
    Here(text, s);
    assert EndedBefore(text, e);
  }

  lemma Here(text: string, s: nat)
    requires s <= |text|
    ensures Blank(text, s, s)
  {
  }

  lemma SymbolHere(text: string, c: nat, tok: char, q: nat, e: nat)
    requires c < |text| && IsSymbol(text[c]) && text[c] != '>' && Blank(text, c, q) && TokenAt(text, tok, q, e)
    ensures q == c && tok == text[c] && e == c + 1
  {
    hide Bag;
    StayPut(text, c, q);
  }

  /** parsepipe: commands joined by |, grouped to the right. */
  method ParsePipe(text: string, s: nat) returns (res: Result, s': nat, ghost tree: Tree)
    requires s <= |text| && NUL !in text
    ensures Parsed(text, s, PipeRank, res, s', tree)
    decreases |text| - s, 2
  {
    hide Bag, TokenAt, TokBag, Blank, Evidence, Parsed, SkipTo, Derives, Complete;
    var c;
    res, c, tree := ParseExec(text, s);
    if res.Panic? {
      PipePanics(text, s, res, c, tree);
      return res, c, tree;
    }
    Bounds(text, s, ExecRank, res, c, tree);
    var found, here := Peek(text, c, "|");
    StayPut(text, c, here);
    if !found {
      PipeEnds(text, s, res, c, tree);
      return res, c, tree;
    }
    var tok, q, e, next := GetToken(text, c);
    SymbolHere(text, c, tok, q, e);
    var rest, end;
    ghost var right;
    rest, end, right := ParsePipe(text, next);
    PipeDone(text, s, res, c, tree, rest, end, right);
    if rest.Panic? {
      return rest, end, right;
    }
    return Ok(Pipe(res.cmd, rest.cmd)), end, Piped(tree, c, right);
  }

  lemma PipePanics(text: string, s: nat, res: Result, c: nat, tree: Tree)
    requires Parsed(text, s, ExecRank, res, c, tree) && res.Panic?
    ensures Parsed(text, s, PipeRank, res, c, tree)
  {
    hide Derives, Complete, Evidence;
    PipeFails(text, s, tree, c);
  }

  lemma PipeEnds(text: string, s: nat, res: Result, c: nat, tree: Tree)
    requires Parsed(text, s, ExecRank, res, c, tree) && res.Ok? && !Symbol(text, c, '|')
    ensures Parsed(text, s, PipeRank, res, c, tree)
  {
    hide Derives, Complete;
    PipeSingle(text, s, tree, c);
    RankUp(text, tree, s, c, ExecRank, PipeRank);
  }

  lemma PipeDone(text: string, s: nat, res: Result, c: nat, tree: Tree, rest: Result, end: nat, right: Tree)
    requires Parsed(text, s, ExecRank, res, c, tree) && res.Ok? && Symbol(text, c, '|')
    requires Parsed(text, SkipTo(text, c + 1), PipeRank, rest, end, right)
    ensures rest.Panic? ==> Parsed(text, s, PipeRank, rest, end, right)
    ensures rest.Ok? ==> Parsed(text, s, PipeRank, Ok(Pipe(res.cmd, rest.cmd)), end, Piped(tree, c, right))
  {
    hide Complete, Evidence, SkipTo, ItemsAt, Args, EndedBefore;
    PipeJoined(text, s, tree, c, rest.Ok?, right, end);
    if rest.Ok? {
      SkipBlank(text, c + 1);
      DerivesLower(text, right, c + 1, SkipTo(text, c + 1), end, PipeRank);
    }
  }

  /** parseline: pipes, each put in the background by &, joined by ; to the right. */
  method ParseLine(text: string, s: nat) returns (res: Result, s': nat, ghost tree: Tree)
    requires s <= |text| && NUL !in text
    ensures Parsed(text, s, LineRank, res, s', tree)
    decreases |text| - s, 3
  {
    hide Bag, TokenAt, TokBag, Blank, Evidence, Parsed, SkipTo, Derives, Complete, Stops;
    var c;
    ghost var base;
    res, c, base := ParsePipe(text, s);
    tree := base;
    if res.Panic? {
      LinePanics(text, s, res, c, base);
      return res, c, base;
    }
    Bounds(text, s, PipeRank, res, c, base);
    ghost var c0, n := c, 0;
    NoAmps(text, s, res, c, base);
    var found, here := Peek(text, c, "&");
    StayPut(text, c, here);
    while found
      invariant s <= c <= |text| && res.Ok? && Backed(text, s, res, c, tree, base, c0, n) && (found <==> Symbol(text, c, '&'))
      decreases |text| - c
    {
      var tok, q, e, next := GetToken(text, c);
      BackedAt(text, s, res, c, tree, base, c0, n);
      SymbolHere(text, c, tok, q, e);
      found, here := Peek(text, next, "&");
      SkipTwice(text, c + 1);
      OneAmp(text, s, res, c, tree, base, c0, n);
      res, tree, n, c := Ok(Back(res.cmd)), Amp(tree, c), n + 1, here;
    }
    BackedAt(text, s, res, c, tree, base, c0, n);
    found, here := Peek(text, c, ";");
    StayPut(text, c, here);
    if !found {
      LineEnds(text, s, res, c, tree, base, c0, n);
      return res, c, tree;
    }
    var tok, q, e, next := GetToken(text, c);
    SymbolHere(text, c, tok, q, e);
    var rest, end;
    ghost var right;
    rest, end, right := ParseLine(text, next);
    LineDone(text, s, res, c, tree, base, c0, n, rest, end, right);
    if rest.Panic? {
      return rest, end, right;
    }
    return Ok(List(res.cmd, rest.cmd)), end, Semi(tree, c, right);
  }

  /** `n` ampersands were read behind the pipeline `base`, which ended at `c0`. */
  ghost predicate Backed(text: string, s: nat, res: Result, c: nat, tree: Tree, base: Tree, c0: nat, n: nat) {
    && res.Ok? && res.cmd == CmdOf(tree) && s <= c && Derives(text, tree, s, c, AmpRank) && Stops(text, c, AmpRank)
    && Complete(text, s, PipeRank, true, base, c0)
    && AllAmp(text, c0, n) && tree == Tower(text, base, c0, n) && c == Pos(text, c0, n)
  }

  lemma BackedAt(text: string, s: nat, res: Result, c: nat, tree: Tree, base: Tree, c0: nat, n: nat)
    requires Backed(text, s, res, c, tree, base, c0, n)
    ensures AtStop(text, c)
  {
  }

  lemma NoAmps(text: string, s: nat, res: Result, c: nat, base: Tree)
    requires Parsed(text, s, PipeRank, res, c, base) && res.Ok?
    ensures Backed(text, s, res, c, base, base, c, 0)
  {
    hide Derives, Complete, EndedBefore;
    RankUp(text, base, s, c, PipeRank, AmpRank);
  }

  lemma OneAmp(text: string, s: nat, res: Result, c: nat, tree: Tree, base: Tree, c0: nat, n: nat)
    requires Backed(text, s, res, c, tree, base, c0, n) && Symbol(text, c, '&')
    ensures Backed(text, s, Ok(Back(res.cmd)), SkipTo(text, c + 1), Amp(tree, c), base, c0, n + 1)
  {
    hide Complete, SkipTo, ItemsAt, Args;
    SkipBlank(text, c + 1);
    assert text[c] == '&';
  }

  lemma LinePanics(text: string, s: nat, res: Result, c: nat, tree: Tree)
    requires Parsed(text, s, PipeRank, res, c, tree) && res.Panic?
    ensures Parsed(text, s, LineRank, res, c, tree)
  {
    hide Derives, Complete, Evidence;
    LineFails(text, s, tree, c);
  }

  lemma LineEnds(text: string, s: nat, res: Result, c: nat, tree: Tree, base: Tree, c0: nat, n: nat)
    requires Backed(text, s, res, c, tree, base, c0, n) && !Symbol(text, c, '&') && !Symbol(text, c, ';')
    ensures Parsed(text, s, LineRank, res, c, tree)
  {
    hide Derives, Complete, Tower, Pos;
    LineSingle(text, s, base, c0, n);
    RankUp(text, tree, s, c, AmpRank, LineRank);
  }

  lemma LineDone(text: string, s: nat, res: Result, c: nat, tree: Tree, base: Tree, c0: nat, n: nat, rest: Result, end: nat, right: Tree)
    requires Backed(text, s, res, c, tree, base, c0, n) && Symbol(text, c, ';') && Parsed(text, SkipTo(text, c + 1), LineRank, rest, end, right)
    ensures rest.Panic? ==> Parsed(text, s, LineRank, rest, end, right)
    ensures rest.Ok? ==> Parsed(text, s, LineRank, Ok(List(res.cmd, rest.cmd)), end, Semi(tree, c, right))
  {
    hide Complete, Evidence, SkipTo, ItemsAt, Args, EndedBefore, Tower, Pos, AllAmp;
    LineJoined(text, s, base, c0, n, rest.Ok?, right, end);
    if rest.Ok? {
      SkipBlank(text, c + 1);
      DerivesLower(text, right, c + 1, SkipTo(text, c + 1), end, LineRank);
    }
  }

  // ---------------------------------------------------------------------- the buffer

  /** nulterminate: a NUL at the end of every word of the command, and nothing else. */
  method Nulterminate(buf: array<char>, cmd: Cmd)
    requires forall e :: e in Ends(cmd) ==> e < buf.Length
    modifies buf
    ensures Terminated(old(buf[..]), buf[..], Ends(cmd))
  {
    match cmd
    case Exec(argv) =>
      ghost var before := buf[..];
      ghost var done: set<nat> := {};
      var i := 0;
      while i < |argv|
        invariant 0 <= i <= |argv| && done == set j | 0 <= j < i :: argv[j].e
        invariant Terminated(before, buf[..], done)
      {
        assert argv[i].e in Ends(cmd);
        buf[argv[i].e] := NUL;
        done := done + {argv[i].e};
        i := i + 1;
      }
    case Redir(c, file, _) =>
      assert Ends(c) <= Ends(cmd) && file.e in Ends(cmd);
      Nulterminate(buf, c);
      buf[file.e] := NUL;
    case Pipe(l, r) =>
      assert Ends(l) <= Ends(cmd) && Ends(r) <= Ends(cmd);
      Nulterminate(buf, l);
      Nulterminate(buf, r);
    case List(l, r) =>
      assert Ends(l) <= Ends(cmd) && Ends(r) <= Ends(cmd);
      Nulterminate(buf, l);
      Nulterminate(buf, r);
    case Back(c) =>
      assert Ends(c) <= Ends(cmd);
      Nulterminate(buf, c);
  }

  method Strlen(buf: array<char>) returns (n: nat)
    requires NUL in buf[..]
    ensures n < buf.Length && buf[n] == NUL && NUL !in buf[..n]
  {
    n := 0;
    while buf[n] != NUL
      invariant n < buf.Length && NUL !in buf[..n] && NUL in buf[n..]
      decreases buf.Length - n
    {
      assert buf[n..] == [buf[n]] + buf[n + 1..];
      n := n + 1;
    }
  }

  /**
    parsecmd: it succeeds exactly on the lines of the grammar, and then the command is that of the
    line's one reading. It accounts for every token of the line, and after it each argument and
    each file name reads, as a C string, exactly the slice of the line it was; the rest of the
    buffer is unchanged. When it panics the line shows why.
   */
  method ParseCmd(buf: array<char>) returns (res: Result, ghost text: string)
    requires NUL in buf[..]
    modifies buf
    ensures text + [NUL] <= old(buf[..]) && NUL !in text
    ensures res.Ok? <==> Accepted(text)
    ensures res.Ok? ==> forall t :: Derives(text, t, 0, |text|, LineRank) ==> res.cmd == CmdOf(t)
    ensures res.Ok? ==> Accounts(text, res.cmd, 0, |text|) && Terminated(old(buf[..]), buf[..], Ends(res.cmd))
    ensures res.Ok? ==> forall w :: w in Slices(res.cmd) ==> w.q <= w.e <= |text| && CString(buf[..], w.q, text[w.q..w.e])
    ensures res.Panic? ==> Evidence(text, res.why, res.at) && buf[..] == old(buf[..])
  {
    hide Bag, InSpan, Toks, Evidence, Terminated, CString, Ends, Slices, EndedBefore, Derives, Complete, Parsed, Accepted, SkipTo, Stops;
    ghost var before := buf[..];
    var n := Strlen(buf);
    var line := buf[..n];
    text := line;
    assert text + [NUL] == before[..n + 1];
    var s;
    ghost var tree;
    res, s, tree := ParseLine(line, 0);
    if res.Panic? {
      Rejected(line, res, s, tree);
      return;
    }
    Bounds(line, 0, LineRank, res, s, tree);
    var none, at := Peek(line, s, "");
    StayPut(line, s, at);
    if at != |line| {
      LeftOver(line, res, s, tree);
      return Panic(Leftovers, at), text;
    }
    Whole(line, res, s, tree);
    EndsInside(line, res.cmd);
    Nulterminate(buf, res.cmd);
    forall w | w in Slices(res.cmd) ensures w.q <= w.e <= |text| && CString(buf[..], w.q, text[w.q..w.e]) {
      WordsReadBack(text, res.cmd, before, buf[..], w);
    }
  }

  lemma Rejected(text: string, res: Result, s: nat, tree: Tree)
    requires Parsed(text, 0, LineRank, res, s, tree) && res.Panic?
    ensures !Accepted(text) && Evidence(text, res.why, res.at)
  {
    hide Derives, Complete, Evidence;
    forall t | Derives(text, t, 0, |text|, LineRank) ensures false { OneReading(text, false, tree, s, t); }
  }

  lemma LeftOver(text: string, res: Result, s: nat, tree: Tree)
    requires Parsed(text, 0, LineRank, res, s, tree) && res.Ok? && s < |text|
    ensures !Accepted(text) && Evidence(text, Leftovers, s)
  {
    hide Derives, Complete;
    forall t | Derives(text, t, 0, |text|, LineRank) ensures false { OneReading(text, true, tree, s, t); }
    if text[s] != ')' {
      var p :| 0 <= p < s && p < |text| && (text[p] == ')' || text[p] == '&');
    }
  }

  lemma Whole(text: string, res: Result, s: nat, tree: Tree)
    requires Parsed(text, 0, LineRank, res, s, tree) && res.Ok? && s == |text|
    ensures Accepted(text) && Accounts(text, res.cmd, 0, |text|) && InSpan(text, res.cmd, 0, |text|)
    ensures forall t :: Derives(text, t, 0, |text|, LineRank) ==> res.cmd == CmdOf(t)
  {
    hide Derives, Complete, InSpan, Bag, Toks;
    DerivesAccounts(text, tree, 0, |text|, LineRank);
    forall t | Derives(text, t, 0, |text|, LineRank) ensures res.cmd == CmdOf(t) { OneReading(text, true, tree, s, t); }
  }

  lemma EndsInside(text: string, cmd: Cmd)
    requires InSpan(text, cmd, 0, |text|)
    ensures forall e :: e in Ends(cmd) ==> e <= |text|
  {
    SlicesAreWords(text, cmd, 0, |text|);
  }
}
