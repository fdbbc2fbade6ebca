/**
 The command language of the boot monitor: taking lines apart, and printing function bodies so that
 they can be read again.
 */
module Monitor {
  import opened Base

  /** sugar on the first character of a token; strchr also finds the terminating 0 of its table. */
  predicate SugarChar(c: char) {
    c in {'=', '(', ')', '{', '}', ';', '\n', '\0'}
  }

  predicate Sugar(tok: string) {
    tok == [] || SugarChar(tok[0])
  }

  // ---------- what a line stands for ----------

  /** Spaces and runs of newlines are skipped. */
  function Skip(s: string): (r: string)
    ensures |r| <= |s|
  {
    if s != [] && (s[0] == ' ' || (|s| > 1 && s[0] == '\n' && s[1] == '\n')) then Skip(s[1..]) else s
  }

  /** The length of a function argument: up to the matching parenthesis, or to a control character. */
  function ArgLen(s: string, depth: int): (n: nat)
    ensures n <= |s|
  {
    if s == [] || s[0] < ' ' then 0
    else if s[0] == ')' && depth == 1 then 1
    else 1 + ArgLen(s[1..], if s[0] == '(' then depth + 1 else if s[0] == ')' then depth - 1 else depth)
  }

  /** The length of a word. */
  function WordLen(s: string): (n: nat)
    ensures n <= |s|
  {
    if s != [] && s[0] > ' ' && !SugarChar(s[0]) then 1 + WordLen(s[1..]) else 0
  }

  /** The length of the token at the start of s. */
  function TokenLen(s: string): (n: nat)
    requires s != []
    ensures n <= |s| && (s[0] >= ' ' || s[0] == '\n' ==> n > 0)
  {
    if s[0] == '(' then ArgLen(s, 0) else if SugarChar(s[0]) then 1 else 1 + WordLen(s[1..])
  }

  /** A newline separates commands as a semicolon does. */
  function Normal(tok: string): string {
    if tok != [] && tok[0] == '\n' then ";" + tok[1..] else tok
  }

  function Tokens(s: string): seq<string>
    decreases |s|
  {
    var t := Skip(s);
    if t == [] || (t[0] < ' ' && t[0] != '\n') then []
    else [Normal(t[..TokenLen(t)])] + Tokens(t[TokenLen(t)..])
  }

  // ---------- printing a function body ----------

  /** Two words in a row need a space between them. */
  function Gap(a: string, b: string): string {
    if !Sugar(a) && !Sugar(b) then " " else ""
  }

  function Print(toks: seq<string>): string {
    if toks == [] then ""
    else toks[0] + (if |toks| > 1 then Gap(toks[0], toks[1]) else "") + Print(toks[1..])
  }

  /** The space the monitor allots to a body of these tokens. */
  function Allotted(toks: seq<string>): nat {
    if toks == [] then 1 else |toks[0]| + 1 + Allotted(toks[1..])
  }

  lemma {:induction false} BodyFits(toks: seq<string>)
    ensures |Print(toks)| + 1 <= Allotted(toks)
  {
    if toks != [] { BodyFits(toks[1..]); }
  }

  // ---------- tokens ----------

  predicate IsWord(t: string) {
    t != [] && forall k :: 0 <= k < |t| ==> t[k] > ' ' && !SugarChar(t[k])
  }

  predicate IsSingle(t: string) {
    t in {"=", ")", "{", "}", ";"}
  }

  /** The text ends exactly with the parenthesis that brings the depth back to 0. */
  predicate Closed(t: string, depth: int) {
    && t != [] && t[0] >= ' '
    && if t[0] == ')' && depth == 1 then |t| == 1
       else Closed(t[1..], if t[0] == '(' then depth + 1 else if t[0] == ')' then depth - 1 else depth)
  }

  /** The text has no control characters, and the depth does not come back to 0. */
  predicate Unclosed(t: string, depth: int) {
    t == [] || (t[0] >= ' ' && !(t[0] == ')' && depth == 1)
      && Unclosed(t[1..], if t[0] == '(' then depth + 1 else if t[0] == ')' then depth - 1 else depth))
  }

  predicate IsArg(t: string) { t != [] && t[0] == '(' && Closed(t, 0) }

  predicate IsOpenArg(t: string) { t != [] && t[0] == '(' && Unclosed(t, 0) }

  /** What onetoken can deliver. */
  predicate TokenOk(t: string) {
    IsWord(t) || IsSingle(t) || IsArg(t) || IsOpenArg(t)
  }

  lemma {:induction false} ClosedLen(t: string, u: string, depth: int)
    requires Closed(t, depth)
    ensures ArgLen(t + u, depth) == |t|
  {
    assert (t + u)[1..] == t[1..] + u;
    if !(t[0] == ')' && depth == 1) {
      ClosedLen(t[1..], u, if t[0] == '(' then depth + 1 else if t[0] == ')' then depth - 1 else depth);
    }
  }

  /** An argument without its closing parenthesis runs on. */
  lemma {:induction false} UnclosedLen(t: string, u: string, depth: int)
    requires Unclosed(t, depth)
    ensures u == [] || u[0] < ' ' ==> ArgLen(t + u, depth) == |t|
    ensures u != [] && u[0] >= ' ' ==> ArgLen(t + u, depth) > |t|
  {
    if t == [] {
      assert t + u == u;
    } else {
      assert (t + u)[1..] == t[1..] + u;
      UnclosedLen(t[1..], u, if t[0] == '(' then depth + 1 else if t[0] == ')' then depth - 1 else depth);
    }
  }

  lemma {:induction false} WordRuns(t: string, u: string)
    requires forall k :: 0 <= k < |t| ==> t[k] > ' ' && !SugarChar(t[k])
    requires u == [] || u[0] <= ' ' || SugarChar(u[0])
    ensures WordLen(t + u) == |t|
  {
    if t == [] {
      assert t + u == u;
    } else {
      assert (t + u)[1..] == t[1..] + u;
      WordRuns(t[1..], u);
    }
  }

  /** A complete token in front of a text that does not continue it. */
  lemma TokenFirst(t: string, u: string)
    requires IsWord(t) || IsSingle(t) || IsArg(t)
    requires IsWord(t) ==> u == [] || u[0] <= ' ' || SugarChar(u[0])
    ensures Tokens(t + u) == [t] + Tokens(u)
  {
    var s := t + u;
    assert s[0] == t[0] && Skip(s) == s;
    if IsWord(t) {
      assert s[1..] == t[1..] + u;
      WordRuns(t[1..], u);
    } else if IsArg(t) {
      ClosedLen(t, u, 0);
    }
    assert TokenLen(s) == |t| && s[..|t|] == t && s[|t|..] == u;
  }

  /** A space in front changes nothing. */
  lemma SpaceFirst(u: string)
    ensures Tokens(" " + u) == Tokens(u)
  {
    assert (" " + u)[1..] == u;
    assert Skip(" " + u) == Skip(u);
  }

  /** An unfinished argument in front of a printed token swallows its first character at least. */
  lemma OpenFirst(t: string, u: string)
    requires IsOpenArg(t) && u != [] && u[0] >= ' '
    ensures Tokens(t + u) != [] && |Tokens(t + u)[0]| > |t|
  {
    var s := t + u;
    assert s[0] == t[0] && Skip(s) == s;
    UnclosedLen(t, u, 0);
  }

  lemma OpenLast(t: string)
    requires IsOpenArg(t)
    ensures Tokens(t) == [t]
  {
    assert Skip(t) == t && t + [] == t;
    UnclosedLen(t, [], 0);
    assert t[..|t|] == t && t[|t|..] == [];
  }

  lemma PrintStarts(toks: seq<string>)
    requires toks != [] && TokenOk(toks[0])
    ensures Print(toks) != [] && Print(toks)[0] == toks[0][0] && toks[0][0] >= ' '
  {
  }

  /** Only the last token of a body may be an argument without its closing parenthesis. */
  predicate Readable(toks: seq<string>) {
    forall k :: 0 <= k < |toks| - 1 ==> !IsOpenArg(toks[k])
  }

  /** Reading a printed function body gives back its tokens, exactly when no argument but the last is left open. */
  lemma {:induction false} RoundTrip(toks: seq<string>)
    requires forall k :: 0 <= k < |toks| ==> TokenOk(toks[k])
    ensures Tokens(Print(toks)) == toks <==> Readable(toks)
  {
    if |toks| > 1 {
      RoundTrip(toks[1..]);
      RoundTripStep(toks);
    } else if |toks| == 1 {
      OneRead(toks[0]);
      assert Print(toks) == toks[0] && toks == [toks[0]];
    }
  }

  lemma RoundTripStep(toks: seq<string>)
    requires |toks| > 1 && TokenOk(toks[0]) && TokenOk(toks[1])
    requires Tokens(Print(toks[1..])) == toks[1..] <==> Readable(toks[1..])
    ensures Tokens(Print(toks)) == toks <==> Readable(toks)
  {
    var t, rest := toks[0], toks[1..];
    PrintTwo(toks);
    if IsOpenArg(t) {
      PrintStarts(rest);
      OpenFirst(t, Gap(t, rest[0]) + Print(rest));
      assert !Readable(toks);
    } else {
      GapFirst(t, rest);
      ReadableRest(toks);
      SameHead(t, Tokens(Print(rest)), rest);
      assert toks == [t] + rest;
    }
  }

  lemma PrintTwo(toks: seq<string>)
    requires |toks| > 1
    ensures Print(toks) == toks[0] + (Gap(toks[0], toks[1..][0]) + Print(toks[1..]))
  {
  }

  lemma SameHead(t: string, a: seq<string>, b: seq<string>)
    ensures [t] + a == [t] + b <==> a == b
  {
    assert ([t] + a)[1..] == a && ([t] + b)[1..] == b;
  }

  lemma OneRead(t: string)
    requires TokenOk(t)
    ensures Tokens(t) == [t]
  {
    if IsOpenArg(t) {
      OpenLast(t);
    } else {
      TokenFirst(t, []);
      assert t + [] == t;
    }
  }

  lemma GapFirst(t: string, rest: seq<string>)
    requires (IsWord(t) || IsSingle(t) || IsArg(t)) && rest != [] && TokenOk(rest[0])
    ensures Tokens(t + (Gap(t, rest[0]) + Print(rest))) == [t] + Tokens(Print(rest))
  {
    PrintStarts(rest);
    var u := Gap(t, rest[0]) + Print(rest);
    TokenFirst(t, u);
    if Gap(t, rest[0]) == " " {
      SpaceFirst(Print(rest));
    } else {
      assert u == Print(rest);
    }
  }

  lemma ReadableRest(toks: seq<string>)
    requires |toks| > 1 && !IsOpenArg(toks[0])
    ensures Readable(toks) <==> Readable(toks[1..])
  {
    forall k | 0 <= k < |toks| - 1 ensures toks[k] == if k == 0 then toks[0] else toks[1..][k - 1] {}
    if Readable(toks[1..]) {
      forall k | 0 <= k < |toks| - 1 ensures !IsOpenArg(toks[k]) { if k > 0 { assert toks[k] == toks[1..][k - 1]; } }
    }
    if Readable(toks) {
      forall k | 0 <= k < |toks[1..]| - 1 ensures !IsOpenArg(toks[1..][k]) { assert toks[1..][k] == toks[k + 1]; }
    }
  }

  // ---------- every token is one of these ----------

  lemma {:induction false} ArgOk(s: string, depth: int)
    ensures var t := s[..ArgLen(s, depth)]; Closed(t, depth) || Unclosed(t, depth)
  {
    if s != [] && s[0] >= ' ' && !(s[0] == ')' && depth == 1) {
      var d := if s[0] == '(' then depth + 1 else if s[0] == ')' then depth - 1 else depth;
      ArgOk(s[1..], d);
      assert s[..ArgLen(s, depth)][1..] == s[1..][..ArgLen(s[1..], d)];
    }
  }

  lemma {:induction false} WordOk(s: string)
    ensures forall k :: 0 <= k < WordLen(s) ==> s[k] > ' ' && !SugarChar(s[k])
  {
    if s != [] && s[0] > ' ' && !SugarChar(s[0]) {
      WordOk(s[1..]);
      forall k | 0 <= k < WordLen(s)
        ensures s[k] > ' ' && !SugarChar(s[k]) { if k > 0 { assert s[k] == s[1..][k - 1]; } }
    }
  }

  lemma {:induction false} SkipStops(s: string)
    ensures var t := Skip(s); t != [] ==> t[0] != ' '
  {
    if s != [] && (s[0] == ' ' || (|s| > 1 && s[0] == '\n' && s[1] == '\n')) { SkipStops(s[1..]); }
  }

  /** Whatever line is read, its tokens are words, single characters and arguments. */
  lemma {:induction false} TokensOk(s: string)
    ensures forall k :: 0 <= k < |Tokens(s)| ==> TokenOk(Tokens(s)[k])
    decreases |s|
  {
    var t := Skip(s);
    if t != [] && !(t[0] < ' ' && t[0] != '\n') {
      var n := TokenLen(t);
      TokensOk(t[n..]);
      SkipStops(s);
      FirstOk(t);
    }
  }

  lemma FirstOk(t: string)
    requires t != [] && t[0] != ' ' && !(t[0] < ' ' && t[0] != '\n')
    ensures TokenOk(Normal(t[..TokenLen(t)]))
  {
    var n := TokenLen(t);
    var tok := t[..n];
    if t[0] == '(' {
      ArgOk(t, 0);
    } else if SugarChar(t[0]) {
      assert tok == [t[0]];
      if t[0] == '\n' { assert ";" + tok[1..] == ";"; }
    } else {
      WordOk(t[1..]);
      forall k | 0 <= k < |tok|
        ensures tok[k] > ' ' && !SugarChar(tok[k]) { if k > 0 { assert tok[k] == t[1..][k - 1]; } }
    }
  }

  // ---------- the code ----------

  /** The character at a position; the line ends with a 0. */
  function CharAt(line: string, i: nat): char { if i < |line| then line[i] else '\0' }

  /** The line of a command: without 0 inside, as C strings are. */
  predicate IsLine(line: string) { '\0' !in line }

  lemma SkipStep(line: string, i: nat)
    requires i < |line|
    ensures Skip(line[i..]) == if line[i] == ' ' || (line[i] == '\n' && CharAt(line, i + 1) == '\n')
      then Skip(line[i + 1..]) else line[i..]
  {
    assert line[i..][1..] == line[i + 1..];
  }

  lemma ArgStep(line: string, i: nat, depth: int)
    requires i < |line| && line[i] >= ' '
    ensures ArgLen(line[i..], depth) == if line[i] == ')' && depth == 1 then 1
      else 1 + ArgLen(line[i + 1..], if line[i] == '(' then depth + 1 else if line[i] == ')' then depth - 1 else depth)
  {
    assert line[i..][1..] == line[i + 1..];
  }

  lemma WordStep(line: string, i: nat)
    requires i < |line|
    ensures WordLen(line[i..]) == if line[i] > ' ' && !SugarChar(line[i]) then 1 + WordLen(line[i + 1..]) else 0
  {
    assert line[i..][1..] == line[i + 1..];
  }

  /** onetoken: the next token from position i on, or nothing, and where it ends. */
  method OneToken(line: string, i: nat) returns (tok: Option<string>, next: nat)
    requires IsLine(line) && i <= |line|
    ensures i <= next <= |line|
    ensures tok == None ==> Tokens(line[i..]) == []
    ensures tok.Some? ==> i < next && Tokens(line[i..]) == [tok.value] + Tokens(line[next..])
  {
    var at := i;
    while at < |line| && (line[at] == ' ' || (line[at] == '\n' && CharAt(line, at + 1) == '\n'))
      invariant i <= at <= |line| && Skip(line[at..]) == Skip(line[i..])
    {
      SkipStep(line, at);
      at := at + 1;
    }
    if at < |line| { SkipStep(line, at); } else { assert line[at..] == []; }
    ghost var t := line[at..];
    assert Skip(line[i..]) == t;
    if CharAt(line, at) < ' ' && CharAt(line, at) != '\n' { return None, at; }
    next := at;
    if line[at] == '(' {
      next := ArgEnd(line, at);
    } else if SugarChar(line[at]) {
      next := at + 1;
    } else {
      next := WordEnd(line, at + 1);
      assert t[1..] == line[at + 1..];
    }
    assert next == at + TokenLen(t);
    assert line[at..next] == t[..TokenLen(t)] && line[next..] == t[TokenLen(t)..];
    var text := line[at..next];
    if text[0] == '\n' { text := text[0 := ';']; }
    assert text == Normal(line[at..next]);
    tok := Some(text);
  }

  /** The loop over a function argument. */
  method ArgEnd(line: string, at: nat) returns (next: nat)
    requires IsLine(line) && at < |line| && line[at] == '('
    ensures at <= next <= |line| && next == at + ArgLen(line[at..], 0)
  {
    var depth := 0;
    next := at;
    while CharAt(line, next) >= ' '
      invariant at <= next <= |line| && next + ArgLen(line[next..], depth) == at + ArgLen(line[at..], 0)
      decreases |line| - next
    {
      ArgStep(line, next, depth);
      var c := line[next];
      if c == '(' { depth := depth + 1; }
      next := next + 1;
      if c == ')' {
        depth := depth - 1;
        if depth == 0 { return; }
      }
    }
    assert ArgLen(line[next..], depth) == 0;
  }

  /** The loop over a word. */
  method WordEnd(line: string, at: nat) returns (next: nat)
    requires IsLine(line) && at <= |line|
    ensures at <= next <= |line| && next == at + WordLen(line[at..])
  {
    next := at;
    while CharAt(line, next) > ' ' && !SugarChar(CharAt(line, next))
      invariant at <= next <= |line| && next + WordLen(line[next..]) == at + WordLen(line[at..])
      decreases |line| - next
    {
      WordStep(line, next);
      next := next + 1;
    }
    if next < |line| { WordStep(line, next); }
  }

  /** tokenize: the tokens of a line, in front of the commands that are still to come. */
  method Tokenize(cmds: seq<string>, line: string) returns (r: seq<string>)
    requires IsLine(line)
    ensures r == Tokens(line) + cmds
  {
    var toks: seq<string>, at: nat := [], 0;
    assert line[0..] == line;
    var tok, next := OneToken(line, at);
    while tok.Some?
      invariant at <= next <= |line| && (tok.Some? ==> at < next)
      invariant ReadUpTo(toks, tok, Tokens(line[next..]), Tokens(line))
      decreases |line| - at, tok
    {
      ghost var was, seen := toks, tok;
      toks := toks + [tok.value];
      at := next;
      tok, next := OneToken(line, at);
      ReadMore(was, seen.value, Tokens(line[at..]), tok, Tokens(line[next..]), Tokens(line));
    }
    r := toks + cmds;
  }

  /** The tokens read, the one at hand and those to come are all tokens of the line. */
  predicate ReadUpTo(toks: seq<string>, tok: Option<string>, rest: seq<string>, all: seq<string>) {
    toks + (if tok.Some? then [tok.value] + rest else []) == all
  }

  lemma ReadMore(toks: seq<string>, t: string, rest: seq<string>, tok: Option<string>, rest2: seq<string>,
                 all: seq<string>)
    requires ReadUpTo(toks, Some(t), rest, all) && rest == if tok.Some? then [tok.value] + rest2 else []
    ensures ReadUpTo(toks + [t], tok, rest2, all)
  {
    assert toks + ([t] + rest) == toks + [t] + rest;
  }

  /** Where a function body ends: at a separator outside braces, or behind the brace that closes it. */
  function BodyEnd(toks: seq<string>, depth: int): (n: nat)
    ensures n <= |toks|
  {
    if toks == [] || toks[0] == [] then 0
    else if toks[0][0] == ';' && depth == 0 then 0
    else
      var d := if toks[0][0] == '{' then depth + 1 else if toks[0][0] == '}' then depth - 1 else depth;
      if toks[0][0] == '}' && d == 0 then 1 else 1 + BodyEnd(toks[1..], d)
  }

  /** The braces still open where the body ends. */
  function BodyDepth(toks: seq<string>, depth: int): int {
    if toks == [] || toks[0] == [] then depth
    else if toks[0][0] == ';' && depth == 0 then depth
    else
      var d := if toks[0][0] == '{' then depth + 1 else if toks[0][0] == '}' then depth - 1 else depth;
      if toks[0][0] == '}' && d == 0 then d else BodyDepth(toks[1..], d)
  }

  /** The body ends with a word and nothing follows it: there is no next token to look at. */
  predicate RunsOff(toks: seq<string>) {
    toks != [] && BodyEnd(toks, 0) == |toks| && !Sugar(toks[|toks| - 1])
  }

  datatype Body = NullPointer | Text(text: string, len: nat, depth: int, rest: seq<string>)

  /** The branch of execute that defines a function: toks are the tokens behind its argument. */
  method DefineFunction(toks: seq<string>) returns (b: Body)
    requires forall k :: 0 <= k < |toks| ==> TokenOk(toks[k])
    ensures b == NullPointer <==> RunsOff(toks)
    ensures b.Text? ==> b.text == Print(toks[..BodyEnd(toks, 0)]) && b.rest == toks[BodyEnd(toks, 0)..]
    ensures b.Text? ==> |b.text| + 1 <= b.len && b.depth == BodyDepth(toks, 0)
  {
    var sep, len, depth := FindEnd(toks);
    var ok, text := PrintBody(toks, sep);
    BodyFits(toks[..sep]);
    b := if ok then Text(text, len, depth, toks[sep..]) else NullPointer;
  }

  /** The first tokens of a body have been printed. */
  predicate Printed(toks: seq<string>, sep: nat, fun: nat, text: string) {
    true == (fun <= sep <= |toks| && text + Print(toks[fun..sep]) == Print(toks[..sep]))
  }

  lemma PrintedNone(toks: seq<string>, sep: nat)
    requires sep <= |toks|
    ensures Printed(toks, sep, 0, "")
  {
    assert toks[0..sep] == toks[..sep];
  }

  lemma PrintedAll(toks: seq<string>, sep: nat, text: string)
    requires Printed(toks, sep, sep, text)
    ensures text == Print(toks[..sep])
  {
    assert toks[sep..sep] == [];
  }

  /** The loop that prints the body. */
  method PrintBody(toks: seq<string>, sep: nat) returns (ok: bool, text: string)
    requires sep == BodyEnd(toks, 0) && forall k :: 0 <= k < |toks| ==> TokenOk(toks[k])
    ensures ok ==> text == Print(toks[..sep])
    ensures !ok <==> RunsOff(toks)
  {
    text := "";
    var fun := 0;
    PrintedNone(toks, sep);
    while fun < sep
      invariant fun <= sep && Printed(toks, sep, fun, text)
      invariant fun == |toks| ==> fun == 0 || Sugar(toks[fun - 1])
    {
      var piece;
      ok, piece := PrintOne(toks, sep, fun);
      if !ok { return; }
      PrintedNext(toks, sep, fun, text, piece);
      text := text + piece;
      fun := fun + 1;
    }
    ok := true;
    PrintedAll(toks, sep, text);
  }

  /** One token of the body, with the space behind it; a word at the end of the list has no next token to look at. */
  method PrintOne(toks: seq<string>, sep: nat, fun: nat) returns (ok: bool, piece: string)
    requires sep == BodyEnd(toks, 0) && fun < sep && forall k :: 0 <= k < |toks| ==> TokenOk(toks[k])
    ensures ok <==> Sugar(toks[fun]) || fun + 1 < |toks|
    ensures ok ==> piece == toks[fun] + if fun + 1 < sep then Gap(toks[fun], toks[fun + 1]) else ""
  {
    ok, piece := true, toks[fun];
    if !Sugar(toks[fun]) {
      if fun + 1 == |toks| { return false, piece; }
      BodyNext(toks, sep, fun);
      if !Sugar(toks[fun + 1]) { piece := piece + " "; }
    }
  }

  lemma PrintedNext(toks: seq<string>, sep: nat, fun: nat, text: string, piece: string)
    requires fun < sep && Printed(toks, sep, fun, text)
    requires piece == toks[fun] + if fun + 1 < sep then Gap(toks[fun], toks[fun + 1]) else ""
    ensures Printed(toks, sep, fun + 1, text + piece)
  {
    PrintStep(toks, fun, sep);
    assert text + piece + Print(toks[fun + 1..sep]) == text + (piece + Print(toks[fun + 1..sep]));
  }

  /** The loop that looks for the end of the body and adds up its length. */
  method FindEnd(toks: seq<string>) returns (sep: nat, len: nat, depth: int)
    requires forall k :: 0 <= k < |toks| ==> TokenOk(toks[k])
    ensures sep == BodyEnd(toks, 0) && depth == BodyDepth(toks, 0) && len == Allotted(toks[..sep])
  {
    sep, depth, len := 0, 0, 1;
    assert toks[0..] == toks;
    while sep < |toks|
      invariant 0 <= sep <= |toks| && sep + BodyEnd(toks[sep..], depth) == BodyEnd(toks, 0)
      invariant BodyDepth(toks[sep..], depth) == BodyDepth(toks, 0) && len == Allotted(toks[..sep])
    {
      var c := toks[sep][0];
      if c == ';' && depth == 0 { return; }
      assert toks[sep..][1..] == toks[sep + 1..];
      AllottedMore(toks, sep);
      len := len + |toks[sep]| + 1;
      sep := sep + 1;
      if c == '{' { depth := depth + 1; }
      if c == '}' {
        depth := depth - 1;
        if depth == 0 { return; }
      }
    }
  }

  lemma {:induction false} AllottedMore(toks: seq<string>, k: nat)
    requires k < |toks|
    ensures Allotted(toks[..k + 1]) == Allotted(toks[..k]) + |toks[k]| + 1
  {
    if k > 0 {
      AllottedMore(toks[1..], k - 1);
      assert toks[..k + 1][1..] == toks[1..][..k] && toks[..k][1..] == toks[1..][..k - 1];
    } else {
      assert toks[..1][1..] == [] && toks[..0] == [];
    }
  }

  /** One more token of the body. */
  lemma PrintStep(toks: seq<string>, fun: nat, sep: nat)
    requires fun < sep <= |toks|
    ensures Print(toks[fun..sep]) == toks[fun] + (if fun + 1 < sep then Gap(toks[fun], toks[fun + 1]) else "")
      + Print(toks[fun + 1..sep])
  {
    assert toks[fun..sep][1..] == toks[fun + 1..sep];
  }

  /** What follows the last token of a body that does not run off its list is no word, or the last token is a brace. */
  lemma BodyNext(toks: seq<string>, sep: nat, fun: nat)
    requires forall k :: 0 <= k < |toks| ==> TokenOk(toks[k])
    requires sep == BodyEnd(toks, 0) && fun < sep && fun + 1 < |toks| && !Sugar(toks[fun])
    ensures fun + 1 == sep ==> Sugar(toks[fun + 1])
  {
    if fun + 1 == sep { LastOfBody(toks, 0); }
  }

  lemma {:induction false} LastOfBody(toks: seq<string>, depth: int)
    requires forall k :: 0 <= k < |toks| ==> toks[k] != []
    ensures var n := BodyEnd(toks, depth); 0 < n < |toks| ==> toks[n - 1][0] == '}' || toks[n][0] == ';'
    ensures BodyEnd(toks, depth) == 0 && toks != [] ==> toks[0][0] == ';'
  {
    if toks != [] && !(toks[0][0] == ';' && depth == 0) {
      LastOfBody(toks[1..], if toks[0][0] == '{' then depth + 1 else if toks[0][0] == '}' then depth - 1 else depth);
    }
  }

  /**
   A function that is defined and called again runs the commands it was defined with; one with open
   braces is not defined.
   */
  method DefineAndCall(line: string, cmds: seq<string>) returns (b: Body, r: Option<seq<string>>)
    requires IsLine(line)
    ensures b == NullPointer <==> RunsOff(Tokens(line))
    ensures r.Some? <==> b.Text? && BodyDepth(Tokens(line), 0) == 0
    ensures r.Some? ==>
      (r.value == Tokens(line)[..BodyEnd(Tokens(line), 0)] + cmds <==>
      Readable(Tokens(line)[..BodyEnd(Tokens(line), 0)]))
  {
    var toks := Tokenize([], line);
    assert toks == Tokens(line);
    TokensOk(line);
    b := DefineFunction(toks);
    r := None;
    if b.Text? && b.depth == 0 {     // else: Missing '}'
      PrintIsLine(toks[..BodyEnd(toks, 0)]);
      var again := Tokenize(cmds, b.text);
      RoundTrip(toks[..BodyEnd(toks, 0)]);
      Cancel(Tokens(b.text), toks[..BodyEnd(toks, 0)], cmds);
      r := Some(again);
    }
  }

  // ---------- bodies for which it fails ----------

  /**
   A word behind the argument and nothing after it, as in the command f() boot: the monitor looks at
   the token after the last.
   */
  lemma RunsOffLine(s: string, f: string, arg: string, w: string)
    requires IsWord(f) && IsArg(arg) && IsWord(w) && s == f + (arg + (" " + w))
    ensures Tokens(s) == [f, arg, w] && RunsOff(Tokens(s)[2..])
  {
    TokenFirst(f, arg + (" " + w));
    TokenFirst(arg, " " + w);
    SpaceFirst(w);
    OneRead(w);
    assert [f] + ([arg] + [w]) == [f, arg, w];
    OneWordRunsOff(w);
    assert [f, arg, w][2..] == [w];
  }

  lemma OneWordRunsOff(w: string)
    requires IsWord(w)
    ensures RunsOff([w])
  {
    assert [w][1..] == [];
  }

  lemma RunsOffExample(s: string)
    requires s == "f() boot"
    ensures Tokens(s) == ["f", "()", "boot"] && RunsOff(Tokens(s)[2..])
  {
    var f, arg, w := s[..1], s[1..3], s[4..];
    assert IsWord(f) && IsWord(w);
    assert arg == ['(', ')'] && Closed(arg[1..], 1);
    assert f == "f" && arg == "()" && w == "boot";
    RunsOffLine(s, f, arg, w);
  }

  /** A line break ends an argument without its parenthesis; in print it is a semicolon, which does not. */
  lemma UnreadableLine(s: string, f: string, arg: string)
    requires IsWord(f) && IsOpenArg(arg) && s == "{" + (f + (arg + "\n}"))
    ensures var toks := ["{", f, arg, ";", "}"];
      Tokens(s) == toks && BodyEnd(toks, 0) == |toks| && BodyDepth(toks, 0) == 0 && Tokens(Print(toks)) != toks
  {
    var toks := ["{", f, arg, ";", "}"];
    UnreadableTokens(s, f, arg);
    WholeBody(toks, "{", f, arg, ";", "}");
    assert !Readable(toks) by { assert toks[2] == arg; }
    assert forall k :: 0 <= k < |toks| ==> TokenOk(toks[k]);
    RoundTrip(toks);
  }

  lemma UnreadableTokens(s: string, f: string, arg: string)
    requires IsWord(f) && IsOpenArg(arg) && s == "{" + (f + (arg + "\n}"))
    ensures Tokens(s) == ["{", f, arg, ";", "}"]
  {
    var b := "{";
    assert SugarChar(b[0]);
    TokenFirst(b, f + (arg + "\n}"));
    TokenFirst(f, arg + "\n}");
    OpenThenBreak(arg);
    assert [b] + ([f] + ([arg] + [";", "}"])) == ["{", f, arg, ";", "}"];
  }

  lemma WholeBody(toks: seq<string>, open: string, f: string, arg: string, sep: string, close: string)
    requires toks == [open, f, arg, sep, close] && open != [] && open[0] == '{' && IsWord(f) && arg != []
      && arg[0] == '('
    requires sep != [] && sep[0] == ';' && close != [] && close[0] == '}'
    ensures BodyEnd(toks, 0) == |toks| && BodyDepth(toks, 0) == 0
  {
    var t1, t2, t3, t4 := toks[1..], toks[2..], toks[3..], toks[4..];
    assert t1[1..] == t2 && t2[1..] == t3 && t3[1..] == t4;
    assert BodyEnd(t4, 1) == 1 && BodyDepth(t4, 1) == 0;
    assert BodyEnd(t3, 1) == 2 && BodyDepth(t3, 1) == 0;
    assert BodyEnd(t2, 1) == 3 && BodyDepth(t2, 1) == 0;
    assert BodyEnd(t1, 1) == 4 && BodyDepth(t1, 1) == 0;
  }

  lemma OpenThenBreak(arg: string)
    requires IsOpenArg(arg)
    ensures Tokens(arg + "\n}") == [arg] + [";", "}"]
  {
    var u, s := ['\n', '}'], arg + "\n}";
    OpenStops(arg, u, 0);
    assert s[..|arg|] == arg && s[|arg|..] == u;
    assert Skip(s) == s && Normal(arg) == arg;
    assert u[..1] == ['\n'] && u[1..] == ['}'] && Normal(u[..1]) == ";" + u[..1][1..];
    assert TokenLen(u) == 1 && Skip(u) == u;
    assert Normal(u[..1]) == ";";
    OneRead(['}']);
    assert Tokens(u) == [";"] + Tokens(u[1..]);
  }

  lemma {:induction false} OpenStops(t: string, u: string, depth: int)
    requires Unclosed(t, depth) && u != [] && u[0] < ' '
    ensures ArgLen(t + u, depth) == |t|
  {
    if t == [] {
      assert t + u == u;
    } else {
      assert (t + u)[1..] == t[1..] + u;
      OpenStops(t[1..], u, if t[0] == '(' then depth + 1 else if t[0] == ')' then depth - 1 else depth);
    }
  }

  lemma Cancel(a: seq<string>, b: seq<string>, c: seq<string>)
    ensures a + c == b + c <==> a == b
  {
    if a + c == b + c {
      assert |a| == |b| && a == (a + c)[..|a|] && b == (b + c)[..|b|];
    }
  }

  lemma {:induction false} PrintIsLine(toks: seq<string>)
    requires forall k :: 0 <= k < |toks| ==> TokenOk(toks[k])
    ensures IsLine(Print(toks))
  {
    if toks != [] {
      PrintIsLine(toks[1..]);
      TokenIsLine(toks[0]);
    }
  }

  lemma TokenIsLine(t: string)
    requires TokenOk(t)
    ensures IsLine(t)
  {
    if IsArg(t) { ArgIsLine(t, 0); }
    if IsOpenArg(t) { ArgIsLine(t, 0); }
  }

  lemma {:induction false} ArgIsLine(t: string, depth: int)
    requires Closed(t, depth) || Unclosed(t, depth)
    ensures IsLine(t)
  {
    if t != [] && !(t[0] == ')' && depth == 1) {
      ArgIsLine(t[1..], if t[0] == '(' then depth + 1 else if t[0] == ')' then depth - 1 else depth);
      assert t == [t[0]] + t[1..];
    }
  }
}
