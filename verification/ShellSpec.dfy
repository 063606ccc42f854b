/**
  The shell's command lines: characters, the tokens of a line read off independently of the
  parser, and the command trees with what it means for a tree to account for a stretch of a line.
 */
module ShellSpec {

  const NUL := 0 as char

  predicate IsSpace(c: char) {
    c == ' ' || c == '\t' || c == '\r' || c == '\n' || c == 11 as char
  }

  predicate IsSymbol(c: char) {
    c == '<' || c == '|' || c == '>' || c == '&' || c == ';' || c == '(' || c == ')'
  }

  predicate IsParen(c: char) {
    c == '(' || c == ')'
  }

  predicate WordChar(c: char) {
    !IsSpace(c) && !IsSymbol(c)
  }

  /** The white space and the symbols, as the shell lists them. */
  lemma Alphabet(c: char)
    ensures IsSpace(c) <==> c in " \t\r\n" + [11 as char]
    ensures IsSymbol(c) <==> c in "<|>&;()"
  {
  }

  /** A maximal run of word characters, from `q` up to `e`. */
  ghost predicate IsWord(text: string, q: nat, e: nat) {
    && q < e <= |text| && (forall k :: q <= k < e ==> WordChar(text[k]))
    && (e < |text| ==> !WordChar(text[e]))
  }

  // ----------------------------------------------------------------------- tokens

  datatype Slice = Slice(q: nat, e: nat)

  datatype Tok = Word(w: Slice) | Sym(c: char)

  function WordEnd(text: string, s: nat): (e: nat)
    requires s <= |text|
    ensures s <= e <= |text| && (forall k :: s <= k < e ==> WordChar(text[k])) && (e < |text| ==> !WordChar(text[e]))
    decreases |text| - s
  {
    if s < |text| && WordChar(text[s]) then WordEnd(text, s + 1) else s
  }

  /** The tokens of the line from `s` on, without parentheses; `>>` counts as two symbols. */
  ghost function Lex(text: string, s: nat): seq<Tok>
    requires s <= |text|
    decreases |text| - s
  {
    if s == |text| then []
    else if IsSpace(text[s]) || IsParen(text[s]) then Lex(text, s + 1)
    else if IsSymbol(text[s]) then [Sym(text[s])] + Lex(text, s + 1)
    else [Word(Slice(s, WordEnd(text, s)))] + Lex(text, WordEnd(text, s))
  }

  ghost function Bag(text: string, s: nat): multiset<Tok>
    requires s <= |text|
  {
    multiset(Lex(text, s))
  }

  lemma BagSkip(text: string, s: nat)
    requires s < |text| && (IsSpace(text[s]) || IsParen(text[s]))
    ensures Bag(text, s) == Bag(text, s + 1)
  {
  }

  lemma BagSymbol(text: string, s: nat)
    requires s < |text| && IsSymbol(text[s]) && !IsParen(text[s])
    ensures Bag(text, s) == multiset{Sym(text[s])} + Bag(text, s + 1)
  {
    assert Lex(text, s) == [Sym(text[s])] + Lex(text, s + 1);
  }

  lemma BagWord(text: string, s: nat, e: nat)
    requires IsWord(text, s, e)
    ensures Bag(text, s) == multiset{Word(Slice(s, e))} + Bag(text, e)
  {
    WordEndIs(text, s, e);
    assert Lex(text, s) == [Word(Slice(s, e))] + Lex(text, e);
  }

  lemma {:induction false} WordEndIs(text: string, s: nat, e: nat)
    requires s <= e <= |text| && (forall k :: s <= k < e ==> WordChar(text[k])) && (e < |text| ==> !WordChar(text[e]))
    ensures WordEnd(text, s) == e
    decreases e - s
  {
    if s < e { WordEndIs(text, s + 1, e); }
  }

  /** Between `lo` and `hi` there is only white space. */
  ghost predicate Blank(text: string, lo: nat, hi: nat) {
    lo <= hi <= |text| && forall k :: lo <= k < hi ==> IsSpace(text[k])
  }

  lemma {:induction false} BagBlank(text: string, lo: nat, hi: nat)
    requires Blank(text, lo, hi)
    ensures Bag(text, lo) == Bag(text, hi)
    decreases hi - lo
  {
    hide Bag;
    if lo < hi {
      BagSkip(text, lo);
      BagBlank(text, lo + 1, hi);
    }
  }

  /** The first position from `s` on that is not white space. */
  function SkipTo(text: string, s: nat): (r: nat)
    requires s <= |text|
    ensures s <= r <= |text|
    decreases |text| - s
  {
    if s < |text| && IsSpace(text[s]) then SkipTo(text, s + 1) else s
  }

  predicate AtStop(text: string, c: nat) {
    c <= |text| && (c < |text| ==> !IsSpace(text[c]))
  }

  lemma {:induction false} SkipIs(text: string, s: nat, r: nat)
    requires Blank(text, s, r) && AtStop(text, r)
    ensures SkipTo(text, s) == r
    decreases r - s
  {
    if s < r { SkipIs(text, s + 1, r); }
  }

  lemma {:induction false} SkipBlank(text: string, s: nat)
    requires s <= |text|
    ensures Blank(text, s, SkipTo(text, s)) && AtStop(text, SkipTo(text, s))
    decreases |text| - s
  {
    if s < |text| && IsSpace(text[s]) { SkipBlank(text, s + 1); }
  }

  /** From a character that is not white space, white space does not lead anywhere. */
  lemma StayPut(text: string, c: nat, q: nat)
    requires Blank(text, c, q)
    ensures c < |text| && !IsSpace(text[c]) ==> c == q
    ensures c == |text| ==> c == q
  {
  }

  lemma BlankTrans(text: string, a: nat, b: nat, c: nat)
    requires Blank(text, a, b) && Blank(text, b, c)
    ensures Blank(text, a, c)
  {
  }

  // ---------------------------------------------------------------------- commands

  const MAXARGS := 10

  datatype Direction = In | Out | Append

  datatype Cmd =
    | Exec(argv: seq<Slice>)
    | Redir(cmd: Cmd, file: Slice, dir: Direction)
    | Pipe(left: Cmd, right: Cmd)
    | List(left: Cmd, right: Cmd)
    | Back(cmd: Cmd)

  ghost function Marks(dir: Direction): multiset<Tok> {
    match dir
    case In => multiset{Sym('<')}
    case Out => multiset{Sym('>')}
    case Append => multiset{Sym('>'), Sym('>')}
  }

  ghost function Words(argv: seq<Slice>): multiset<Tok> {
    if argv == [] then multiset{} else Words(argv[..|argv| - 1]) + multiset{Word(argv[|argv| - 1])}
  }

  /** The tokens a command stands for. */
  ghost function Toks(cmd: Cmd): multiset<Tok> {
    match cmd
    case Exec(argv) => Words(argv)
    case Redir(c, file, dir) => Toks(c) + multiset{Word(file)} + Marks(dir)
    case Pipe(l, r) => Toks(l) + multiset{Sym('|')} + Toks(r)
    case List(l, r) => Toks(l) + multiset{Sym(';')} + Toks(r)
    case Back(c) => Toks(c) + multiset{Sym('&')}
  }

  ghost predicate IsSlice(text: string, w: Slice, lo: nat, hi: nat) {
    lo <= w.q && w.e <= hi && IsWord(text, w.q, w.e)
  }

  ghost predicate ArgsIn(text: string, argv: seq<Slice>, lo: nat, hi: nat) {
    && (forall i :: 0 <= i < |argv| ==> IsSlice(text, argv[i], lo, hi))
    && (forall i, j :: 0 <= i < j < |argv| ==> argv[i].e <= argv[j].q)
  }

  /**
    The command lies in `lo..hi` of the line: its words are words of the line, arguments and
    redirections in order, and of two joined commands the left one is before the right one.
   */
  ghost predicate InSpan(text: string, cmd: Cmd, lo: nat, hi: nat) {
    match cmd
    case Exec(argv) => |argv| < MAXARGS && ArgsIn(text, argv, lo, hi)
    case Redir(c, file, _) => InSpan(text, c, lo, hi) && IsSlice(text, file, lo, hi) && (c.Redir? ==> c.file.e <= file.q)
    case Pipe(l, r) => exists mid :: lo <= mid <= hi && InSpan(text, l, lo, mid) && InSpan(text, r, mid, hi)
    case List(l, r) => exists mid :: lo <= mid <= hi && InSpan(text, l, lo, mid) && InSpan(text, r, mid, hi)
    case Back(c) => InSpan(text, c, lo, hi)
  }

  lemma {:induction false} SpanWider(text: string, cmd: Cmd, lo: nat, hi: nat, lo': nat, hi': nat)
    requires InSpan(text, cmd, lo, hi) && lo' <= lo && hi <= hi'
    ensures InSpan(text, cmd, lo', hi')
  {
    match cmd
    case Exec(argv) =>
    case Redir(c, file, _) => SpanWider(text, c, lo, hi, lo', hi');
    case Pipe(l, r) =>
      var mid: nat :| lo <= mid <= hi && InSpan(text, l, lo, mid) && InSpan(text, r, mid, hi);
      SpanWider(text, l, lo, mid, lo', mid);
      SpanWider(text, r, mid, hi, mid, hi');
    case List(l, r) =>
      var mid: nat :| lo <= mid <= hi && InSpan(text, l, lo, mid) && InSpan(text, r, mid, hi);
      SpanWider(text, l, lo, mid, lo', mid);
      SpanWider(text, r, mid, hi, mid, hi');
    case Back(c) => SpanWider(text, c, lo, hi, lo', hi');
  }

  /** The command accounts for exactly what was read between `s` and `e`. */
  ghost predicate Accounts(text: string, cmd: Cmd, s: nat, e: nat) {
    s <= e <= |text| && InSpan(text, cmd, s, e) && Bag(text, s) == Toks(cmd) + Bag(text, e)
  }

  // ------------------------------------------------------------------- redirections

  datatype Redirection = Redirection(file: Slice, dir: Direction)

  /** redircmd applied once for each redirection, in the order read. */
  function Wrap(cmd: Cmd, rs: seq<Redirection>): Cmd {
    if rs == [] then cmd else Redir(Wrap(cmd, rs[..|rs| - 1]), rs[|rs| - 1].file, rs[|rs| - 1].dir)
  }

  ghost function RedirToks(rs: seq<Redirection>): multiset<Tok> {
    if rs == [] then multiset{}
    else RedirToks(rs[..|rs| - 1]) + multiset{Word(rs[|rs| - 1].file)} + Marks(rs[|rs| - 1].dir)
  }

  ghost predicate RedirsIn(text: string, rs: seq<Redirection>, lo: nat, hi: nat) {
    && (forall i :: 0 <= i < |rs| ==> IsSlice(text, rs[i].file, lo, hi))
    && (forall i, j :: 0 <= i < j < |rs| ==> rs[i].file.e <= rs[j].file.q)
  }

  lemma RedirToksMore(rs: seq<Redirection>, r: Redirection)
    ensures RedirToks(rs + [r]) == RedirToks(rs) + multiset{Word(r.file)} + Marks(r.dir)
  {
    assert (rs + [r])[..|rs + [r]| - 1] == rs;
  }

  lemma WordsMore(argv: seq<Slice>, w: Slice)
    ensures Words(argv + [w]) == Words(argv) + multiset{Word(w)}
  {
    assert (argv + [w])[..|argv + [w]| - 1] == argv;
  }

  lemma {:induction false} WrapToks(cmd: Cmd, rs: seq<Redirection>)
    ensures Toks(Wrap(cmd, rs)) == Toks(cmd) + RedirToks(rs)
  {
    if rs != [] { WrapToks(cmd, rs[..|rs| - 1]); }
  }

  lemma {:induction false} WrapSpan(text: string, cmd: Cmd, rs: seq<Redirection>, lo: nat, hi: nat)
    requires InSpan(text, cmd, lo, hi) && RedirsIn(text, rs, lo, hi)
    requires cmd.Redir? ==> forall i :: 0 <= i < |rs| ==> cmd.file.e <= rs[i].file.q
    ensures InSpan(text, Wrap(cmd, rs), lo, hi)
    ensures rs != [] ==> Wrap(cmd, rs).Redir? && Wrap(cmd, rs).file == rs[|rs| - 1].file
  {
    if rs != [] {
      WrapSpan(text, cmd, rs[..|rs| - 1], lo, hi);
    }
  }

  // ------------------------------------------------------------------ C strings

  /** Where terminators go. */
  ghost function Ends(cmd: Cmd): set<nat> {
    match cmd
    case Exec(argv) => set i | 0 <= i < |argv| :: argv[i].e
    case Redir(c, file, _) => Ends(c) + {file.e}
    case Pipe(l, r) => Ends(l) + Ends(r)
    case List(l, r) => Ends(l) + Ends(r)
    case Back(c) => Ends(c)
  }

  ghost function Slices(cmd: Cmd): set<Slice> {
    match cmd
    case Exec(argv) => set i | 0 <= i < |argv| :: argv[i]
    case Redir(c, file, _) => Slices(c) + {file}
    case Pipe(l, r) => Slices(l) + Slices(r)
    case List(l, r) => Slices(l) + Slices(r)
    case Back(c) => Slices(c)
  }

  /** The string that starts at `q`: up to the first NUL. */
  ghost predicate CString(buf: seq<char>, q: nat, str: string) {
    && q + |str| < |buf| && buf[q..q + |str|] == str && buf[q + |str|] == NUL && NUL !in str
  }

  /** Every slice of a command is a word of the line, and its end is a terminator. */
  lemma {:induction false} SlicesAreWords(text: string, cmd: Cmd, lo: nat, hi: nat)
    requires InSpan(text, cmd, lo, hi)
    ensures forall w :: w in Slices(cmd) ==> IsWord(text, w.q, w.e) && w.e in Ends(cmd)
    ensures forall e :: e in Ends(cmd) ==> e <= |text| && (e < |text| ==> !WordChar(text[e]))
  {
    match cmd
    case Exec(argv) =>
      forall i | 0 <= i < |argv| ensures IsWord(text, argv[i].q, argv[i].e) { assert IsSlice(text, argv[i], lo, hi); }
    case Redir(c, file, _) => SlicesAreWords(text, c, lo, hi);
    case Pipe(l, r) =>
      var mid: nat :| lo <= mid <= hi && InSpan(text, l, lo, mid) && InSpan(text, r, mid, hi);
      SlicesAreWords(text, l, lo, mid);
      SlicesAreWords(text, r, mid, hi);
    case List(l, r) =>
      var mid: nat :| lo <= mid <= hi && InSpan(text, l, lo, mid) && InSpan(text, r, mid, hi);
      SlicesAreWords(text, l, lo, mid);
      SlicesAreWords(text, r, mid, hi);
    case Back(c) => SlicesAreWords(text, c, lo, hi);
  }

  ghost predicate Terminated(before: seq<char>, after: seq<char>, ends: set<nat>) {
    |after| == |before| && forall i :: 0 <= i < |before| ==> after[i] == if i in ends then NUL else before[i]
  }

  /** No terminator lands inside a word, so each word reads back as the slice it was. */
  lemma WordsReadBack(text: string, cmd: Cmd, before: seq<char>, after: seq<char>, w: Slice)
    requires InSpan(text, cmd, 0, |text|) && NUL !in text && text + [NUL] <= before && Terminated(before, after, Ends(cmd)) && w in Slices(cmd)
    ensures w.q <= w.e <= |text| && CString(after, w.q, text[w.q..w.e])
  {
    SlicesAreWords(text, cmd, 0, |text|);
    forall k | w.q <= k < w.e ensures after[k] == text[k] {
      assert WordChar(text[k]) && k !in Ends(cmd) && before[k] == (text + [NUL])[k];
    }
    assert w.e in Ends(cmd) && after[w.e] == NUL;
    assert after[w.q..w.e] == text[w.q..w.e];
  }

  ghost predicate NoSymbols(text: string) {
    forall k :: 0 <= k < |text| ==> !IsSymbol(text[k])
  }

  lemma {:induction false} PlainTokens(text: string, s: nat, c: char)
    requires s <= |text| && NoSymbols(text)
    ensures Sym(c) !in Bag(text, s)
    decreases |text| - s
  {
    if s < |text| {
      if IsSpace(text[s]) {
        PlainTokens(text, s + 1, c);
      } else {
        BagWord(text, s, WordEnd(text, s));
        PlainTokens(text, WordEnd(text, s), c);
      }
    }
  }

  /** A line without symbols is one command whose arguments are its words. */
  lemma PlainLineIsExec(text: string, cmd: Cmd)
    requires NoSymbols(text) && Accounts(text, cmd, 0, |text|)
    ensures cmd.Exec? && Words(cmd.argv) == Bag(text, 0)
  {
    assert Bag(text, |text|) == multiset{};
    PlainTokens(text, 0, '<');
    PlainTokens(text, 0, '>');
    PlainTokens(text, 0, '|');
    PlainTokens(text, 0, ';');
    PlainTokens(text, 0, '&');
    assert Bag(text, 0) == Toks(cmd);
  }
}
