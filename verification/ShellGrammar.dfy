/**
  The grammar of command lines, independent of the parser: what it means that a stretch of a line
  is read as a given tree, what that says about the line's words and tokens, and that there is
  one way to read a sequence of words and redirections.
 */
module ShellGrammar {
  import opened ShellSpec

  /** A part of a simple command: an argument, or a redirection with its symbol at `p`. */
  datatype Item = Arg(w: Slice) | Red(p: nat, w: Slice, dir: Direction)

  ghost function Args(items: seq<Item>): seq<Slice> {
    if items == [] then []
    else Args(items[..|items| - 1]) + if items[|items| - 1].Arg? then [items[|items| - 1].w] else []
  }

  ghost function Redirs(items: seq<Item>): seq<Redirection> {
    if items == [] then []
    else var last := items[|items| - 1];
         Redirs(items[..|items| - 1]) + if last.Red? then [Redirection(last.w, last.dir)] else []
  }

  /** Where a redirection's symbol ends; 0 if it is not one. */
  function SymbolEnd(text: string, p: nat, dir: Direction): nat {
    if dir == In then if p < |text| && text[p] == '<' then p + 1 else 0
    else if dir == Out then if p < |text| && text[p] == '>' && !(p + 1 < |text| && text[p + 1] == '>') then p + 1 else 0
    else if p + 1 < |text| && text[p] == '>' && text[p + 1] == '>' then p + 2 else 0
  }

  /** From `s` to `e` the line reads exactly these parts, with white space anywhere between. */
  ghost predicate ItemsAt(text: string, items: seq<Item>, s: nat, e: nat) {
    if items == [] then Blank(text, s, e)
    else
      var rest, last := items[..|items| - 1], items[|items| - 1];
      && IsWord(text, last.w.q, last.w.e) && Blank(text, last.w.e, e)
      && match last
         case Arg(w) => ItemsAt(text, rest, s, w.q)
         case Red(p, w, dir) => ItemsAt(text, rest, s, p) && SymbolEnd(text, p, dir) > 0 && Blank(text, SymbolEnd(text, p, dir), w.q)
  }

  /** How a stretch of a line is read. */
  datatype Tree =
    | Simple(items: seq<Item>)
    | Block(p: nat, line: Tree, d: nat, items: seq<Item>)  // parentheses at `p` and `d`
    | Piped(left: Tree, c: nat, right: Tree)               // | at `c`
    | Amp(sub: Tree, c: nat)                               // & at `c`
    | Semi(left: Tree, c: nat, right: Tree)                // ; at `c`

  ghost function CmdOf(t: Tree): Cmd {
    match t
    case Simple(items) => Wrap(Exec(Args(items)), Redirs(items))
    case Block(_, line, _, items) => Wrap(CmdOf(line), Redirs(items))
    case Piped(l, _, r) => Pipe(CmdOf(l), CmdOf(r))
    case Amp(sub, _) => Back(CmdOf(sub))
    case Semi(l, _, r) => List(CmdOf(l), CmdOf(r))
  }

  /** What may be read: a simple command or block, a pipeline, one in the background, a line. */
  datatype Rank = ExecRank | PipeRank | AmpRank | LineRank

  predicate Symbol(text: string, c: nat, ch: char) {
    c < |text| && text[c] == ch
  }

  /**
    The grammar. A pipeline is commands joined by | to the right; & puts what is before it in the
    background; a line is such parts joined by ; to the right; a block is a line in parentheses,
    with redirections behind it.
   */
  ghost predicate Derives(text: string, t: Tree, s: nat, e: nat, rank: Rank) {
    match t
    case Simple(items) => ItemsAt(text, items, s, e) && |Args(items)| < MAXARGS
    case Block(p, line, d, items) =>
      && Blank(text, s, p) && Symbol(text, p, '(') && Derives(text, line, p + 1, d, LineRank)
      && Symbol(text, d, ')') && ItemsAt(text, items, d + 1, e) && Args(items) == []
    case Piped(l, c, r) =>
      && rank != ExecRank && Derives(text, l, s, c, ExecRank) && Symbol(text, c, '|') && Derives(text, r, c + 1, e, PipeRank)
    case Amp(sub, c) =>
      && (rank == AmpRank || rank == LineRank) && Derives(text, sub, s, c, AmpRank) && Symbol(text, c, '&') && Blank(text, c + 1, e)
    case Semi(l, c, r) =>
      && rank == LineRank && Derives(text, l, s, c, AmpRank) && Symbol(text, c, ';') && Derives(text, r, c + 1, e, LineRank)
  }

  // ------------------------------------- what a derivation says about words and tokens

  lemma {:induction false} ItemsBounds(text: string, items: seq<Item>, s: nat, e: nat)
    requires ItemsAt(text, items, s, e)
    ensures s <= e <= |text|
  {
    if items != [] {
      var rest, last := items[..|items| - 1], items[|items| - 1];
      ItemsBounds(text, rest, s, if last.Arg? then last.w.q else last.p);
    }
  }

  lemma {:induction false} ItemsIn(text: string, items: seq<Item>, s: nat, e: nat)
    requires ItemsAt(text, items, s, e)
    ensures ArgsIn(text, Args(items), s, e) && RedirsIn(text, Redirs(items), s, e)
  {
    if items != [] {
      var rest, last := items[..|items| - 1], items[|items| - 1];
      var mid := if last.Arg? then last.w.q else last.p;
      ItemsIn(text, rest, s, mid);
      ItemsBounds(text, rest, s, mid);
      if last.Arg? {
        ArgsMore(text, Args(rest), s, mid, last.w, e);
        RedirsWider(text, Redirs(rest), s, mid, e);
      } else {
        RedirsMore(text, Redirs(rest), s, mid, last.w, last.dir, e);
        ArgsWider(text, Args(rest), s, mid, e);
      }
    }
  }

  lemma ArgsMore(text: string, argv: seq<Slice>, lo: nat, hi: nat, w: Slice, hi': nat)
    requires ArgsIn(text, argv, lo, hi) && lo <= hi <= w.q && w.e <= hi' && IsWord(text, w.q, w.e)
    ensures ArgsIn(text, argv + [w], lo, hi')
  {
    var all := argv + [w];
    forall i | 0 <= i < |all| ensures IsSlice(text, all[i], lo, hi') {
      if i < |argv| { assert IsSlice(text, argv[i], lo, hi); }
    }
    forall i | 0 <= i < |argv| ensures argv[i].e <= w.q { assert IsSlice(text, argv[i], lo, hi); }
  }

  lemma ArgsWider(text: string, argv: seq<Slice>, lo: nat, hi: nat, hi': nat)
    requires ArgsIn(text, argv, lo, hi) && hi <= hi'
    ensures ArgsIn(text, argv, lo, hi')
  {
    forall i | 0 <= i < |argv| ensures IsSlice(text, argv[i], lo, hi') { assert IsSlice(text, argv[i], lo, hi); }
  }

  lemma RedirsMore(text: string, rs: seq<Redirection>, lo: nat, hi: nat, w: Slice, dir: Direction, after: nat)
    requires RedirsIn(text, rs, lo, hi) && lo <= hi <= w.q && w.e <= after && IsWord(text, w.q, w.e)
    ensures RedirsIn(text, rs + [Redirection(w, dir)], lo, after)
  {
    var all := rs + [Redirection(w, dir)];
    forall i | 0 <= i < |all| ensures IsSlice(text, all[i].file, lo, after) {
      if i < |rs| { assert IsSlice(text, rs[i].file, lo, hi); }
    }
    forall i | 0 <= i < |rs| ensures rs[i].file.e <= w.q { assert IsSlice(text, rs[i].file, lo, hi); }
  }

  lemma RedirsWider(text: string, rs: seq<Redirection>, lo: nat, hi: nat, hi': nat)
    requires RedirsIn(text, rs, lo, hi) && hi <= hi'
    ensures RedirsIn(text, rs, lo, hi')
  {
    forall i | 0 <= i < |rs| ensures IsSlice(text, rs[i].file, lo, hi') { assert IsSlice(text, rs[i].file, lo, hi); }
  }

  /** The tokens read are the arguments, the files and the redirections' symbols. */
  lemma {:induction false} ItemsBag(text: string, items: seq<Item>, s: nat, e: nat)
    requires ItemsAt(text, items, s, e) && s <= |text| && e <= |text|
    ensures Bag(text, s) == Words(Args(items)) + RedirToks(Redirs(items)) + Bag(text, e)
  {
    hide Bag, Words, RedirToks, Marks, IsWord, SymbolEnd, Args, Redirs;
    if items == [] {
      BagBlank(text, s, e);
      NoTokens();
    } else {
      var rest, last := items[..|items| - 1], items[|items| - 1];
      LastItem(items);
      BagBlank(text, last.w.e, e);
      BagWord(text, last.w.q, last.w.e);
      if last.Arg? {
        ItemsBag(text, rest, s, last.w.q);
        WordsMore(Args(rest), last.w);
        AddArg(Bag(text, s), Words(Args(rest)), RedirToks(Redirs(rest)), Bag(text, last.w.q), multiset{Word(last.w)}, Bag(text, e));
      } else {
        ItemsBounds(text, rest, s, last.p);
        ItemsBag(text, rest, s, last.p);
        SymbolTokens(text, last.p, last.dir);
        BagBlank(text, SymbolEnd(text, last.p, last.dir), last.w.q);
        RedirToksMore(Redirs(rest), Redirection(last.w, last.dir));
        AddRedir(Bag(text, s), Words(Args(rest)), RedirToks(Redirs(rest)), Bag(text, last.p), Marks(last.dir), multiset{Word(last.w)}, Bag(text, e));
      }
    }
  }

  lemma NoTokens()
    ensures Args([]) == [] && Redirs([]) == [] && Words([]) == multiset{} && RedirToks([]) == multiset{}
  {
  }

  lemma LastItem(items: seq<Item>)
    requires items != []
    ensures var rest, last := items[..|items| - 1], items[|items| - 1];
            && Args(items) == (if last.Arg? then Args(rest) + [last.w] else Args(rest))
            && Redirs(items) == if last.Red? then Redirs(rest) + [Redirection(last.w, last.dir)] else Redirs(rest)
  {
  }

  lemma AddArg(all: multiset<Tok>, args: multiset<Tok>, rs: multiset<Tok>, rest: multiset<Tok>, w: multiset<Tok>, end: multiset<Tok>)
    requires all == args + rs + rest && rest == w + end
    ensures all == args + w + rs + end
  {
  }

  lemma AddRedir(all: multiset<Tok>, args: multiset<Tok>, rs: multiset<Tok>, rest: multiset<Tok>, m: multiset<Tok>, w: multiset<Tok>, end: multiset<Tok>)
    requires all == args + rs + rest && rest == m + (w + end)
    ensures all == args + (rs + w + m) + end
  {
    assert rs + (m + (w + end)) == rs + w + m + end;
  }

  lemma SymbolTokens(text: string, p: nat, dir: Direction)
    requires SymbolEnd(text, p, dir) > 0
    ensures p < SymbolEnd(text, p, dir) <= |text| && Bag(text, p) == Marks(dir) + Bag(text, SymbolEnd(text, p, dir))
  {
    hide Bag;
    BagSymbol(text, p);
    if dir == Append { BagSymbol(text, p + 1); }
  }

  /** A derivation lies in its stretch and accounts for every token of it, once. */
  lemma {:induction false} DerivesAccounts(text: string, t: Tree, s: nat, e: nat, rank: Rank)
    requires Derives(text, t, s, e, rank)
    ensures Accounts(text, CmdOf(t), s, e)
    decreases t
  {
    hide Bag, InSpan, ItemsAt, Blank, Accounts, Args, Redirs, Wrap;
    match t
    case Simple(items) => SimpleAccounts(text, items, s, e);
    case Block(p, line, d, items) =>
      DerivesAccounts(text, line, p + 1, d, LineRank);
      BlockAccounts(text, CmdOf(line), s, p, d, items, e);
    case Piped(l, c, r) =>
      DerivesAccounts(text, l, s, c, ExecRank);
      DerivesAccounts(text, r, c + 1, e, PipeRank);
      JoinAccounts(text, CmdOf(l), s, c, CmdOf(r), e);
    case Amp(sub, c) =>
      DerivesAccounts(text, sub, s, c, AmpRank);
      BackAccounts(text, CmdOf(sub), s, c, e);
    case Semi(l, c, r) =>
      DerivesAccounts(text, l, s, c, AmpRank);
      DerivesAccounts(text, r, c + 1, e, LineRank);
      JoinAccounts(text, CmdOf(l), s, c, CmdOf(r), e);
  }

  lemma SimpleAccounts(text: string, items: seq<Item>, s: nat, e: nat)
    requires ItemsAt(text, items, s, e) && |Args(items)| < MAXARGS
    ensures Accounts(text, Wrap(Exec(Args(items)), Redirs(items)), s, e)
  {
    hide Bag, ItemsAt, ArgsIn, RedirsIn;
    ItemsBounds(text, items, s, e);
    ItemsIn(text, items, s, e);
    ItemsBag(text, items, s, e);
    assert InSpan(text, Exec(Args(items)), s, e);
    WrapSpan(text, Exec(Args(items)), Redirs(items), s, e);
    WrapToks(Exec(Args(items)), Redirs(items));
  }

  lemma BlockAccounts(text: string, cmd: Cmd, s: nat, p: nat, d: nat, items: seq<Item>, e: nat)
    requires Blank(text, s, p) && Symbol(text, p, '(') && Accounts(text, cmd, p + 1, d) && Symbol(text, d, ')')
    requires ItemsAt(text, items, d + 1, e) && Args(items) == []
    ensures Accounts(text, Wrap(cmd, Redirs(items)), s, e)
  {
    hide Bag, ItemsAt, Toks, RedirToks;
    ItemsBounds(text, items, d + 1, e);
    ItemsIn(text, items, d + 1, e);
    ItemsBag(text, items, d + 1, e);
    BagBlank(text, s, p);
    BagSkip(text, p);
    BagSkip(text, d);
    WrapToks(cmd, Redirs(items));
    assert Words([]) == multiset{};
    assert Bag(text, s) == Toks(cmd) + RedirToks(Redirs(items)) + Bag(text, e);
    SpanWider(text, cmd, p + 1, d, s, e);
    LowerRedirs(text, Redirs(items), d + 1, s, e);
    if cmd.Redir? { FileIn(text, cmd, p + 1, d); }
    FilesAfter(text, Redirs(items), d + 1, e);
    WrapSpan(text, cmd, Redirs(items), s, e);
  }

  lemma LowerRedirs(text: string, rs: seq<Redirection>, lo: nat, lo': nat, hi: nat)
    requires RedirsIn(text, rs, lo, hi) && lo' <= lo
    ensures RedirsIn(text, rs, lo', hi)
  {
    forall i | 0 <= i < |rs| ensures IsSlice(text, rs[i].file, lo', hi) { assert IsSlice(text, rs[i].file, lo, hi); }
  }

  lemma FilesAfter(text: string, rs: seq<Redirection>, lo: nat, hi: nat)
    requires RedirsIn(text, rs, lo, hi)
    ensures forall i :: 0 <= i < |rs| ==> lo <= rs[i].file.q
  {
    forall i | 0 <= i < |rs| ensures lo <= rs[i].file.q { assert IsSlice(text, rs[i].file, lo, hi); }
  }

  lemma FileIn(text: string, cmd: Cmd, lo: nat, hi: nat)
    requires cmd.Redir? && InSpan(text, cmd, lo, hi)
    ensures cmd.file.e <= hi
  {
  }

  lemma JoinAccounts(text: string, l: Cmd, s: nat, c: nat, r: Cmd, e: nat)
    requires Accounts(text, l, s, c) && c < |text| && Accounts(text, r, c + 1, e)
    ensures text[c] == '|' ==> Accounts(text, Pipe(l, r), s, e)
    ensures text[c] == ';' ==> Accounts(text, List(l, r), s, e)
  {
    hide Bag, InSpan, Toks;
    SpanWider(text, l, s, c, s, c + 1);
    JoinSpan(text, l, s, c + 1, r, e);
    if text[c] == '|' || text[c] == ';' {
      BagSymbol(text, c);
      AddJoin(Bag(text, s), Toks(l), Bag(text, c), multiset{Sym(text[c])}, Bag(text, c + 1), Toks(r), Bag(text, e));
    }
  }

  lemma JoinSpan(text: string, l: Cmd, s: nat, mid: nat, r: Cmd, e: nat)
    requires s <= mid <= e && InSpan(text, l, s, mid) && InSpan(text, r, mid, e)
    ensures InSpan(text, Pipe(l, r), s, e) && InSpan(text, List(l, r), s, e)
    ensures Toks(Pipe(l, r)) == Toks(l) + multiset{Sym('|')} + Toks(r) && Toks(List(l, r)) == Toks(l) + multiset{Sym(';')} + Toks(r)
  {
  }

  lemma AddJoin(all: multiset<Tok>, l: multiset<Tok>, rest: multiset<Tok>, sym: multiset<Tok>, rest1: multiset<Tok>, r: multiset<Tok>, end: multiset<Tok>)
    requires all == l + rest && rest == sym + rest1 && rest1 == r + end
    ensures all == l + sym + r + end
  {
  }

  lemma BackAccounts(text: string, cmd: Cmd, s: nat, c: nat, e: nat)
    requires Accounts(text, cmd, s, c) && Symbol(text, c, '&') && Blank(text, c + 1, e)
    ensures Accounts(text, Back(cmd), s, e)
  {
    hide Bag;
    BagSymbol(text, c);
    BagBlank(text, c + 1, e);
    SpanWider(text, cmd, s, c, s, e);
  }

  // --------------------------------------------------------------- one way to read items

  function Start(item: Item): nat {
    if item.Arg? then item.w.q else item.p
  }

  /** The character an item starts with tells what it is. */
  ghost predicate StartsItem(text: string, item: Item) {
    Start(item) < |text| && if item.Arg? then WordChar(text[item.w.q]) else text[item.p] == '<' || text[item.p] == '>'
  }

  /** The items before the `k`-th end where it starts. */
  lemma {:induction false} ItemsSplit(text: string, items: seq<Item>, s: nat, e: nat, k: nat)
    requires ItemsAt(text, items, s, e) && k < |items|
    ensures ItemsAt(text, items[..k], s, Start(items[k])) && StartsItem(text, items[k]) && AtStop(text, Start(items[k]))
    decreases |items|
  {
    var n := |items| - 1;
    var rest := items[..n];
    if k < n {
      ItemsSplit(text, rest, s, Start(items[n]), k);
      assert rest[..k] == items[..k] && rest[k] == items[k];
    }
  }

  lemma ItemsLast(text: string, items: seq<Item>, s: nat, e: nat)
    requires ItemsAt(text, items, s, e) && items != []
    ensures var w := items[|items| - 1].w; IsWord(text, w.q, w.e) && Blank(text, w.e, e)
  {
  }

  lemma WordUnique(text: string, q: nat, e: nat, e': nat)
    requires IsWord(text, q, e) && IsWord(text, q, e')
    ensures e == e'
  {
    WordEndIs(text, q, e);
    WordEndIs(text, q, e');
  }

  /** Two items that start at the same place are the same. */
  lemma ItemUnique(text: string, x: seq<Item>, s: nat, e: nat, y: seq<Item>, e': nat)
    requires ItemsAt(text, x, s, e) && ItemsAt(text, y, s, e') && x != [] && y != [] && Start(x[|x| - 1]) == Start(y[|y| - 1])
    ensures x[|x| - 1] == y[|y| - 1]
  {
    hide ItemsAt, IsWord, Blank, SymbolEnd;
    var a, b := x[|x| - 1], y[|y| - 1];
    ItemsSplit(text, x, s, e, |x| - 1);
    ItemsSplit(text, y, s, e', |y| - 1);
    ItemsLast(text, x, s, e);
    ItemsLast(text, y, s, e');
    if a.Red? {
      FileStart(text, x, s, e);
      FileStart(text, y, s, e');
      OneDirection(text, a.p, a.dir, b.dir);
    }
    WordUnique(text, a.w.q, a.w.e, b.w.e);
  }

  /** A redirection's file is the first thing behind its symbol. */
  lemma FileStart(text: string, items: seq<Item>, s: nat, e: nat)
    requires ItemsAt(text, items, s, e) && items != [] && items[|items| - 1].Red?
    ensures var r := items[|items| - 1];
            0 < SymbolEnd(text, r.p, r.dir) <= |text| && r.w.q == SkipTo(text, SymbolEnd(text, r.p, r.dir))
  {
    var r := items[|items| - 1];
    SkipIs(text, SymbolEnd(text, r.p, r.dir), r.w.q);
  }

  lemma OneDirection(text: string, p: nat, a: Direction, b: Direction)
    requires SymbolEnd(text, p, a) > 0 && SymbolEnd(text, p, b) > 0
    ensures a == b
  {
  }

  /** A shorter reading from the same place is a beginning of a longer one. */
  lemma {:induction false} ItemsUnique(text: string, a: seq<Item>, s: nat, c: nat, b: seq<Item>, e: nat)
    requires ItemsAt(text, a, s, c) && AtStop(text, c) && ItemsAt(text, b, s, e) && AtStop(text, e) && |a| <= |b|
    ensures a == b[..|a|] && c == if |a| == |b| then e else Start(b[|a|])
    decreases |a|
  {
    hide ItemsAt;
    var n := |a|;
    if n < |b| {
      ItemsSplit(text, b, s, e, n);
      ItemsSame(text, a, s, c, b[..n], Start(b[n]));
    } else {
      assert b[..n] == b;
      ItemsSame(text, a, s, c, b, e);
    }
  }

  lemma NoItems(text: string, s: nat, e: nat)
    requires ItemsAt(text, [], s, e) && AtStop(text, e)
    ensures s <= |text| && e == SkipTo(text, s)
  {
    SkipIs(text, s, e);
  }

  lemma {:induction false} ItemsSame(text: string, a: seq<Item>, s: nat, c: nat, b: seq<Item>, e: nat)
    requires ItemsAt(text, a, s, c) && AtStop(text, c) && ItemsAt(text, b, s, e) && AtStop(text, e) && |a| == |b|
    ensures a == b && c == e
    decreases |a|
  {
    hide ItemsAt, IsWord, Blank;
    var n := |a|;
    if n == 0 {
      NoItems(text, s, c);
      NoItems(text, s, e);
    } else {
      ItemsSplit(text, a, s, c, n - 1);
      ItemsSplit(text, b, s, e, n - 1);
      ItemsSame(text, a[..n - 1], s, Start(a[n - 1]), b[..n - 1], Start(b[n - 1]));
      ItemUnique(text, a, s, c, b, e);
      ItemsLast(text, a, s, c);
      ItemsLast(text, b, s, e);
      SkipIs(text, a[n - 1].w.e, c);
      SkipIs(text, b[n - 1].w.e, e);
      assert a == a[..n - 1] + [a[n - 1]] && b == b[..n - 1] + [b[n - 1]];
    }
  }

  // ----------------------------------------------------------------- one way to read a line

  /** What may come behind something of the given rank. */
  predicate Follows(text: string, e: nat, rank: Rank) {
    || e == |text|
    || (e < |text| && (|| text[e] == ')'
                       || (text[e] == ';' && rank != LineRank)
                       || (text[e] == '&' && rank != LineRank)
                       || (text[e] == '|' && rank == ExecRank)))
  }

  /** A reading from `s` that ends at `e`, where something that may follow stands. */
  ghost predicate Reads(text: string, t: Tree, s: nat, e: nat, rank: Rank) {
    Derives(text, t, s, e, rank) && AtStop(text, e) && Follows(text, e, rank)
  }

  /** Every reading from `s` is the one found; if none was found there is none. */
  ghost predicate Complete(text: string, s: nat, rank: Rank, found: bool, tree: Tree, end: nat) {
    forall t, e :: Reads(text, t, s, e, rank) ==> found && t == tree && e == end
  }

  lemma {:induction false} DerivesBounds(text: string, t: Tree, s: nat, e: nat, rank: Rank)
    requires Derives(text, t, s, e, rank)
    ensures s <= e <= |text|
    decreases t
  {
    hide ItemsAt, Args;
    match t
    case Simple(items) => ItemsBounds(text, items, s, e);
    case Block(p, line, d, items) =>
      DerivesBounds(text, line, p + 1, d, LineRank);
      ItemsBounds(text, items, d + 1, e);
    case Piped(l, c, r) =>
      DerivesBounds(text, l, s, c, ExecRank);
      DerivesBounds(text, r, c + 1, e, PipeRank);
    case Amp(sub, c) => DerivesBounds(text, sub, s, c, AmpRank);
    case Semi(l, c, r) =>
      DerivesBounds(text, l, s, c, AmpRank);
      DerivesBounds(text, r, c + 1, e, LineRank);
  }

  /** White space in front makes no difference. */
  lemma {:induction false} ItemsShift(text: string, items: seq<Item>, s: nat, e: nat)
    requires ItemsAt(text, items, s, e) && AtStop(text, e) && s <= |text|
    ensures ItemsAt(text, items, SkipTo(text, s), e)
    decreases |items|
  {
    if items == [] {
      SkipIs(text, s, e);
    } else {
      var n := |items| - 1;
      ItemsSplit(text, items, s, e, n);
      ItemsShift(text, items[..n], s, Start(items[n]));
    }
  }

  lemma {:induction false} DerivesShift(text: string, t: Tree, s: nat, e: nat, rank: Rank)
    requires Derives(text, t, s, e, rank) && AtStop(text, e) && s <= |text|
    ensures Derives(text, t, SkipTo(text, s), e, rank)
    decreases t
  {
    hide ItemsAt;
    match t
    case Simple(items) => ItemsShift(text, items, s, e);
    case Block(p, line, d, items) => SkipIs(text, s, p);
    case Piped(l, c, r) => DerivesShift(text, l, s, c, ExecRank);
    case Amp(sub, c) => DerivesShift(text, sub, s, c, AmpRank);
    case Semi(l, c, r) => DerivesShift(text, l, s, c, AmpRank);
  }

  /** What the first character says about a simple command or block. */
  lemma ExecStarts(text: string, t: Tree, s: nat, e: nat)
    requires Reads(text, t, s, e, ExecRank) && s <= |text|
    ensures (t.Block? && t.p == SkipTo(text, s) && Symbol(text, t.p, '(')) || (t.Simple? && !Symbol(text, SkipTo(text, s), '('))
  {
    if t.Simple? {
      if t.items == [] {
        NoItems(text, s, e);
      } else {
        ItemsSplit(text, t.items, s, e, 0);
        NoItems(text, s, Start(t.items[0]));
      }
    } else if t.Block? {
      SkipIs(text, s, t.p);
    }
  }

  /** Nor does more white space in front. */
  lemma {:induction false} ItemsLower(text: string, items: seq<Item>, s: nat, s': nat, e: nat)
    requires ItemsAt(text, items, s', e) && Blank(text, s, s')
    ensures ItemsAt(text, items, s, e)
    decreases |items|
  {
    if items != [] { ItemsLower(text, items[..|items| - 1], s, s', Start(items[|items| - 1])); }
  }

  lemma {:induction false} DerivesLower(text: string, t: Tree, s: nat, s': nat, e: nat, rank: Rank)
    requires Derives(text, t, s', e, rank) && Blank(text, s, s')
    ensures Derives(text, t, s, e, rank)
    decreases t
  {
    hide ItemsAt;
    match t
    case Simple(items) => ItemsLower(text, items, s, s', e);
    case Block(p, line, d, items) =>
    case Piped(l, c, r) => DerivesLower(text, l, s, s', c, ExecRank);
    case Amp(sub, c) => DerivesLower(text, sub, s, s', c, AmpRank);
    case Semi(l, c, r) => DerivesLower(text, l, s, s', c, AmpRank);
  }

  lemma CompleteLower(text: string, s: nat, rank: Rank, found: bool, tree: Tree, end: nat)
    requires s <= |text| && Complete(text, SkipTo(text, s), rank, found, tree, end)
    ensures Complete(text, s, rank, found, tree, end)
  {
    hide Derives;
    forall t, e | Reads(text, t, s, e, rank) ensures found && t == tree && e == end {
      DerivesShift(text, t, s, e, rank);
      assert Reads(text, t, SkipTo(text, s), e, rank);
    }
  }

  lemma RankUp(text: string, t: Tree, s: nat, e: nat, rank: Rank, up: Rank)
    requires Derives(text, t, s, e, rank)
    requires rank == ExecRank || (rank == PipeRank && up != ExecRank) || (rank == AmpRank && up == LineRank) || rank == up
    ensures Derives(text, t, s, e, up)
  {
    hide ItemsAt, Args, Blank;
  }

  // ------------------------------------------------------------------------ growing items

  lemma {:induction false} ItemsOn(text: string, items: seq<Item>, s: nat, e: nat, e': nat)
    requires ItemsAt(text, items, s, e) && Blank(text, e, e')
    ensures ItemsAt(text, items, s, e')
  {
  }

  lemma AddWord(text: string, items: seq<Item>, s: nat, c: nat, w: Slice, e: nat)
    requires ItemsAt(text, items, s, c) && c == w.q && IsWord(text, w.q, w.e) && Blank(text, w.e, e)
    ensures ItemsAt(text, items + [Arg(w)], s, e)
    ensures Args(items + [Arg(w)]) == Args(items) + [w] && Redirs(items + [Arg(w)]) == Redirs(items)
  {
    assert (items + [Arg(w)])[..|items + [Arg(w)]| - 1] == items;
  }

  lemma AddRedirection(text: string, items: seq<Item>, s: nat, p: nat, w: Slice, dir: Direction, e: nat)
    requires ItemsAt(text, items, s, p) && SymbolEnd(text, p, dir) > 0 && Blank(text, SymbolEnd(text, p, dir), w.q)
    requires IsWord(text, w.q, w.e) && Blank(text, w.e, e)
    ensures ItemsAt(text, items + [Red(p, w, dir)], s, e)
    ensures Args(items + [Red(p, w, dir)]) == Args(items) && Redirs(items + [Red(p, w, dir)]) == Redirs(items) + [Redirection(w, dir)]
  {
    var all := items + [Red(p, w, dir)];
    assert all[..|all| - 1] == items;
  }

  // ------------------------------------------------------------------- simple commands

  /** Of two readings of parts, the one that can go on does. */
  lemma SimpleUnique(text: string, its: seq<Item>, s: nat, c: nat, items: seq<Item>, e: nat)
    requires ItemsAt(text, its, s, c) && AtStop(text, c) && ItemsAt(text, items, s, e) && AtStop(text, e) && Follows(text, e, ExecRank)
    ensures |its| <= |items| && its == items[..|its|]
    ensures if |its| == |items| then c == e else c == Start(items[|its|]) && StartsItem(text, items[|its|])
  {
    hide ItemsAt;
    if |items| < |its| {
      ItemsUnique(text, items, s, e, its, c);
      ItemsSplit(text, its, s, c, |items|);
    } else {
      ItemsUnique(text, its, s, c, items, e);
      if |its| < |items| { ItemsSplit(text, items, s, e, |its|); }
    }
  }

  /** A simple command read up to a place where it must end. */
  lemma SimpleComplete(text: string, its: seq<Item>, s: nat, c: nat)
    requires ItemsAt(text, its, s, c) && AtStop(text, c) && Follows(text, c, ExecRank) && s <= |text| && !Symbol(text, SkipTo(text, s), '(')
    ensures Complete(text, s, ExecRank, true, Simple(its), c)
  {
    hide ItemsAt;
    forall t, e | Reads(text, t, s, e, ExecRank) ensures t == Simple(its) && e == c {
      ExecStarts(text, t, s, e);
      SimpleUnique(text, its, s, c, t.items, e);
    }
  }

  /** A redirection symbol at `p` without a word behind it. */
  ghost predicate BadRedir(text: string, p: nat) {
    && p < |text| && (text[p] == '<' || text[p] == '>')
    && forall dir :: 0 < SymbolEnd(text, p, dir) <= |text| ==>
         var q := SkipTo(text, SymbolEnd(text, p, dir)); !(q < |text| && WordChar(text[q]))
  }

  /** Such a symbol is no item. */
  lemma BadRedirEnds(text: string, items: seq<Item>, s: nat, e: nat, k: nat)
    requires ItemsAt(text, items, s, e) && k < |items| && Start(items[k]) < |text|
    ensures !BadRedir(text, Start(items[k]))
  {
    hide ItemsAt;
    ItemsSplit(text, items, s, e, k);
    UpTo(text, items, s, e, k + 1);
    var front := items[..k + 1];
    if items[k].Red? {
      FileStart(text, front, s, if k + 1 < |items| then Start(items[k + 1]) else e);
      ItemsLast(text, front, s, if k + 1 < |items| then Start(items[k + 1]) else e);
    }
  }

  lemma UpTo(text: string, items: seq<Item>, s: nat, e: nat, k: nat)
    requires ItemsAt(text, items, s, e) && k <= |items|
    ensures ItemsAt(text, items[..k], s, if k < |items| then Start(items[k]) else e)
  {
    hide ItemsAt;
    if k < |items| { ItemsSplit(text, items, s, e, k); } else { assert items[..k] == items; }
  }

  /** parseredirs or parseexec stopped where no simple command can go on. */
  lemma SimpleFails(text: string, its: seq<Item>, s: nat, c: nat)
    requires ItemsAt(text, its, s, c) && AtStop(text, c) && s <= |text| && !Symbol(text, SkipTo(text, s), '(')
    requires c < |text| && (BadRedir(text, c) || text[c] == '(')
    ensures forall t, end :: Complete(text, s, ExecRank, false, t, end)
  {
    hide ItemsAt;
    forall t, e | Reads(text, t, s, e, ExecRank) ensures false {
      ExecStarts(text, t, s, e);
      SimpleUnique(text, its, s, c, t.items, e);
      if |its| < |t.items| { BadRedirEnds(text, t.items, s, e, |its|); }
    }
  }

  lemma {:induction false} ArgsPrefix(items: seq<Item>, k: nat)
    requires k <= |items|
    ensures |Args(items[..k])| <= |Args(items)|
    decreases |items|
  {
    if k < |items| {
      var n := |items| - 1;
      ArgsPrefix(items[..n], k);
      assert items[..n][..k] == items[..k];
    } else {
      assert items[..k] == items;
    }
  }

  /** One argument too many. */
  lemma TooManyFails(text: string, its: seq<Item>, s: nat, c: nat)
    requires ItemsAt(text, its, s, c) && AtStop(text, c) && s <= |text| && !Symbol(text, SkipTo(text, s), '(')
    requires |Args(its)| + 1 >= MAXARGS && c < |text| && WordChar(text[c])
    ensures forall t, end :: Complete(text, s, ExecRank, false, t, end)
  {
    hide ItemsAt, Args;
    forall t, e | Reads(text, t, s, e, ExecRank) ensures false {
      ExecStarts(text, t, s, e);
      SimpleUnique(text, its, s, c, t.items, e);
      var k := |its|;
      if k < |t.items| {
        var front := t.items[..k + 1];
        assert front[..k] == its;
        LastItem(front);
        ArgsPrefix(t.items, k + 1);
      }
    }
  }

  // ------------------------------------------------------------------------- blocks

  lemma {:induction false} NoArgs(items: seq<Item>, k: nat)
    requires Args(items) == [] && k < |items|
    ensures items[k].Red?
    decreases |items|
  {
    if k < |items| - 1 { NoArgs(items[..|items| - 1], k); }
  }

  /** A block, whose line and redirections were read as far as they go. */
  lemma BlockComplete(text: string, s: nat, line: Tree, d: nat, its: seq<Item>, c: nat)
    requires s <= |text| && Symbol(text, SkipTo(text, s), '(') && Complete(text, SkipTo(text, SkipTo(text, s) + 1), LineRank, true, line, d)
    requires Symbol(text, d, ')') && ItemsAt(text, its, d + 1, c) && Args(its) == [] && AtStop(text, c)
    requires c < |text| ==> text[c] != '<' && text[c] != '>'
    ensures Complete(text, s, ExecRank, true, Block(SkipTo(text, s), line, d, its), c)
  {
    hide ItemsAt, Args;
    forall t, e | Reads(text, t, s, e, ExecRank) ensures t == Block(SkipTo(text, s), line, d, its) && e == c {
      BlockLine(text, s, true, line, d, t, e);
      SimpleUnique(text, its, d + 1, c, t.items, e);
      if |its| < |t.items| { NoArgs(t.items, |its|); }
    }
  }

  /** A reading that starts with a parenthesis is a block around the line that was found. */
  lemma BlockLine(text: string, s: nat, found: bool, line: Tree, d: nat, t: Tree, e: nat)
    requires s <= |text| && Symbol(text, SkipTo(text, s), '(') && Complete(text, SkipTo(text, SkipTo(text, s) + 1), LineRank, found, line, d)
    requires Reads(text, t, s, e, ExecRank)
    ensures t.Block? && found && t.p == SkipTo(text, s) && t.line == line && t.d == d && Symbol(text, d, ')')
    ensures ItemsAt(text, t.items, d + 1, e) && Args(t.items) == []
  {
    hide ItemsAt, Args;
    ExecStarts(text, t, s, e);
    DerivesShift(text, t.line, t.p + 1, t.d, LineRank);
    assert Reads(text, t.line, SkipTo(text, t.p + 1), t.d, LineRank);
  }

  lemma BlockFails(text: string, s: nat, found: bool, line: Tree, d: nat)
    requires s <= |text| && Symbol(text, SkipTo(text, s), '(') && Complete(text, SkipTo(text, SkipTo(text, s) + 1), LineRank, found, line, d)
    requires found ==> !Symbol(text, d, ')')
    ensures forall t, end :: Complete(text, s, ExecRank, false, t, end)
  {
    forall t, e | Reads(text, t, s, e, ExecRank) ensures false {
      BlockLine(text, s, found, line, d, t, e);
    }
  }

  lemma BlockRedirFails(text: string, s: nat, line: Tree, d: nat, its: seq<Item>, c: nat)
    requires s <= |text| && Symbol(text, SkipTo(text, s), '(') && Complete(text, SkipTo(text, SkipTo(text, s) + 1), LineRank, true, line, d)
    requires Symbol(text, d, ')') && ItemsAt(text, its, d + 1, c) && AtStop(text, c) && BadRedir(text, c)
    ensures forall t, end :: Complete(text, s, ExecRank, false, t, end)
  {
    hide ItemsAt, Args;
    forall t, e | Reads(text, t, s, e, ExecRank) ensures false {
      BlockLine(text, s, true, line, d, t, e);
      SimpleUnique(text, its, d + 1, c, t.items, e);
      if |its| < |t.items| { BadRedirEnds(text, t.items, d + 1, e, |its|); }
    }
  }

  // ----------------------------------------------------------------------- pipelines

  /** A reading of a pipeline begins with the command that was found. */
  lemma PipeHead(text: string, s: nat, found: bool, t1: Tree, c1: nat, t: Tree, e: nat)
    requires Complete(text, s, ExecRank, found, t1, c1) && Reads(text, t, s, e, PipeRank)
    ensures found && if t.Piped? then t.left == t1 && t.c == c1 && Symbol(text, c1, '|') else t == t1 && e == c1 && !Symbol(text, c1, '|')
  {
    hide ItemsAt, Args;
    if t.Piped? {
      assert Reads(text, t.left, s, t.c, ExecRank);
    } else {
      assert Reads(text, t, s, e, ExecRank);
    }
  }

  lemma PipeFails(text: string, s: nat, t1: Tree, c1: nat)
    requires Complete(text, s, ExecRank, false, t1, c1)
    ensures forall t, end :: Complete(text, s, PipeRank, false, t, end)
  {
    forall t, e | Reads(text, t, s, e, PipeRank) ensures false { PipeHead(text, s, false, t1, c1, t, e); }
  }

  lemma PipeSingle(text: string, s: nat, t1: Tree, c1: nat)
    requires Complete(text, s, ExecRank, true, t1, c1) && !Symbol(text, c1, '|')
    ensures Complete(text, s, PipeRank, true, t1, c1)
  {
    forall t, e | Reads(text, t, s, e, PipeRank) ensures t == t1 && e == c1 { PipeHead(text, s, true, t1, c1, t, e); }
  }

  lemma PipeJoined(text: string, s: nat, t1: Tree, c1: nat, found: bool, t2: Tree, c2: nat)
    requires Complete(text, s, ExecRank, true, t1, c1) && Symbol(text, c1, '|') && Complete(text, SkipTo(text, c1 + 1), PipeRank, found, t2, c2)
    ensures Complete(text, s, PipeRank, found, Piped(t1, c1, t2), c2)
    ensures !found ==> forall t, end :: Complete(text, s, PipeRank, false, t, end)
  {
    hide ItemsAt, Args;
    forall t, e | Reads(text, t, s, e, PipeRank) ensures found && t == Piped(t1, c1, t2) && e == c2 {
      PipeHead(text, s, true, t1, c1, t, e);
      DerivesShift(text, t.right, c1 + 1, e, PipeRank);
      assert Reads(text, t.right, SkipTo(text, c1 + 1), e, PipeRank);
    }
  }

  // --------------------------------------------------------------------------- lines

  /** Where the `n`-th & behind a pipeline that ended at `c` leads. */
  function Pos(text: string, c: nat, n: nat): nat {
    if n == 0 then c else var p := Pos(text, c, n - 1); if p < |text| then SkipTo(text, p + 1) else p
  }

  ghost predicate AllAmp(text: string, c: nat, n: nat) {
    forall j :: 0 <= j < n ==> Symbol(text, Pos(text, c, j), '&')
  }

  /** A pipeline with `n` ampersands behind it. */
  ghost function Tower(text: string, base: Tree, c: nat, n: nat): Tree {
    if n == 0 then base else Amp(Tower(text, base, c, n - 1), Pos(text, c, n - 1))
  }

  ghost function Amps(t: Tree): nat {
    if t.Amp? then 1 + Amps(t.sub) else 0
  }

  /** Whatever ends in ampersands is the pipeline that was found with that many. */
  lemma {:induction false} AmpForm(text: string, s: nat, found: bool, base: Tree, c: nat, t: Tree, e: nat)
    requires Complete(text, s, PipeRank, found, base, c) && Reads(text, t, s, e, AmpRank)
    ensures found && AllAmp(text, c, Amps(t)) && t == Tower(text, base, c, Amps(t)) && e == Pos(text, c, Amps(t))
    decreases t
  {
    hide ItemsAt, Args, Complete;
    if t.Amp? {
      AmpForm(text, s, found, base, c, t.sub, t.c);
      SkipIs(text, t.c + 1, e);
    } else {
      AmpBase(text, s, found, base, c, t, e);
    }
  }

  lemma AmpBase(text: string, s: nat, found: bool, base: Tree, c: nat, t: Tree, e: nat)
    requires Complete(text, s, PipeRank, found, base, c) && Reads(text, t, s, e, AmpRank) && !t.Amp?
    ensures found && t == base && e == c
  {
    hide ItemsAt, Args;
    assert Reads(text, t, s, e, PipeRank);
  }

  lemma AmpsAgree(text: string, c: nat, n: nat, k: nat)
    requires AllAmp(text, c, n) && !Symbol(text, Pos(text, c, n), '&')
    requires AllAmp(text, c, k) && !Symbol(text, Pos(text, c, k), '&')
    ensures n == k
  {
    hide Pos;
  }

  /** The part of a line before its first ; is what was found, with all the ampersands there are. */
  lemma LineHead(text: string, s: nat, found: bool, base: Tree, c: nat, n: nat, t: Tree, e: nat)
    requires Complete(text, s, PipeRank, found, base, c) && Reads(text, t, s, e, LineRank)
    requires found ==> AllAmp(text, c, n) && !Symbol(text, Pos(text, c, n), '&')
    ensures found
    ensures var head, end := Tower(text, base, c, n), Pos(text, c, n);
            if t.Semi? then t.left == head && t.c == end && Symbol(text, end, ';') else t == head && e == end && !Symbol(text, end, ';')
  {
    hide ItemsAt, Args, Complete, Tower, Pos;
    var (h, x) := if t.Semi? then (t.left, t.c) else (t, e);
    assert Reads(text, h, s, x, AmpRank);
    AmpForm(text, s, found, base, c, h, x);
    AmpsAgree(text, c, n, Amps(h));
  }

  lemma LineFails(text: string, s: nat, base: Tree, c: nat)
    requires Complete(text, s, PipeRank, false, base, c)
    ensures forall t, end :: Complete(text, s, LineRank, false, t, end)
  {
    forall t, e | Reads(text, t, s, e, LineRank) ensures false { LineHead(text, s, false, base, c, 0, t, e); }
  }

  lemma LineSingle(text: string, s: nat, base: Tree, c: nat, n: nat)
    requires Complete(text, s, PipeRank, true, base, c) && AllAmp(text, c, n)
    requires !Symbol(text, Pos(text, c, n), '&') && !Symbol(text, Pos(text, c, n), ';')
    ensures Complete(text, s, LineRank, true, Tower(text, base, c, n), Pos(text, c, n))
  {
    forall t, e | Reads(text, t, s, e, LineRank) ensures t == Tower(text, base, c, n) && e == Pos(text, c, n) {
      LineHead(text, s, true, base, c, n, t, e);
    }
  }

  lemma LineJoined(text: string, s: nat, base: Tree, c: nat, n: nat, found: bool, t2: Tree, c2: nat)
    requires Complete(text, s, PipeRank, true, base, c) && AllAmp(text, c, n) && Symbol(text, Pos(text, c, n), ';')
    requires Complete(text, SkipTo(text, Pos(text, c, n) + 1), LineRank, found, t2, c2)
    ensures Complete(text, s, LineRank, found, Semi(Tower(text, base, c, n), Pos(text, c, n), t2), c2)
    ensures !found ==> forall t, end :: Complete(text, s, LineRank, false, t, end)
  {
    hide ItemsAt, Args, Tower, Pos;
    var head, p := Tower(text, base, c, n), Pos(text, c, n);
    forall t, e | Reads(text, t, s, e, LineRank) ensures found && t == Semi(head, p, t2) && e == c2 {
      LineHead(text, s, true, base, c, n, t, e);
      DerivesShift(text, t.right, p + 1, e, LineRank);
      assert Reads(text, t.right, SkipTo(text, p + 1), e, LineRank);
    }
  }

  // ------------------------------------------------------------------ the whole line

  /** The line is in the grammar. */
  ghost predicate Accepted(text: string) {
    exists t :: Derives(text, t, 0, |text|, LineRank)
  }

  /** A line has at most one reading: the grammar is unambiguous. */
  lemma OneReading(text: string, found: bool, tree: Tree, end: nat, t: Tree)
    requires Complete(text, 0, LineRank, found, tree, end) && Derives(text, t, 0, |text|, LineRank)
    ensures found && t == tree && end == |text|
  {
    hide Derives;
    assert Reads(text, t, 0, |text|, LineRank);
  }
}
