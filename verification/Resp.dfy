/**
 * The wire format of commands (v1/RESP_parser.hpp): arrays of bulk strings
 * of the Redis serialization protocol, read from a buffer that fills up as
 * bytes arrive.  A char stands for one byte.
 */
module Resp {
  import opened RespBytes

  // a 32-bit int
  const IntMax: int := 0x7FFF_FFFF

  datatype Command = Command(name: string, args: seq<string>)

  datatype Parsed = Success(cmd: Command, bytesRead: nat) | Incomplete | Error

  datatype Number = NotANumber | Number(value: int)

  // ---------- the library functions the parser calls ----------

  // std::string::find("\r\n", p); the length of b when there is none
  function FindCrlf(b: string, p: nat): (r: nat)
    requires p <= |b|
    ensures p <= r <= |b| && (r < |b| ==> r + 2 <= |b|)
    decreases |b| - p
  {
    if p + 1 >= |b| then |b|
    else if b[p] == '\r' && b[p + 1] == '\n' then p
    else FindCrlf(b, p + 1)
  }

  predicate IsDigit(c: char) { '0' <= c <= '9' }

  predicate IsSpace(c: char) { c == ' ' || '\t' <= c <= '\r' }

  function SkipSpaces(s: string): string {
    if s != [] && IsSpace(s[0]) then SkipSpaces(s[1..]) else s
  }

  function DigitRun(s: string): (n: nat)
    ensures n <= |s|
  {
    if s != [] && IsDigit(s[0]) then 1 + DigitRun(s[1..]) else 0
  }

  function DigitValue(c: char): nat
    requires IsDigit(c)
  {
    c as int - 48
  }

  predicate AllDigits(s: string) { forall i :: 0 <= i < |s| ==> IsDigit(s[i]) }

  function Value(s: string): nat
    requires AllDigits(s)
  {
    if s == [] then 0 else Value(s[..|s| - 1]) * 10 + DigitValue(s[|s| - 1])
  }

  lemma {:induction false} DigitRunDigits(s: string)
    ensures AllDigits(s[..DigitRun(s)])
  {
    if s != [] && IsDigit(s[0]) { DigitRunDigits(s[1..]); }
  }

  // std::stoi: spaces, a sign, digits; what follows them is ignored
  function StoI(s: string): Number {
    var t := SkipSpaces(s);
    var negative := t != [] && t[0] == '-';
    var u := if t != [] && (t[0] == '-' || t[0] == '+') then t[1..] else t;
    DigitRunDigits(u);
    var v: int := Value(u[..DigitRun(u)]);
    if DigitRun(u) == 0 then NotANumber
    else if negative then (if -v < -IntMax - 1 then NotANumber else Number(-v))
    else if v > IntMax then NotANumber else Number(v)
  }

  // std::to_string
  function Digits(n: nat): (s: string)
    ensures s != [] && AllDigits(s)
  {
    var d := [(n % 10 + 48) as char];
    if n < 10 then d else Digits(n / 10) + d
  }

  // toupper in the C locale
  function Upper(s: string): string {
    seq(|s|, i requires 0 <= i < |s| =>
      if 'a' <= s[i] <= 'z' then (s[i] as int - 32) as char else s[i])
  }

  // ---------- the parser ----------

  datatype One = Token(text: string, next: nat) | Short | Wrong

  // one bulk string at pos
  function TokenAt(b: string, pos: nat): (r: One)
    requires pos <= |b|
    ensures r.Token? ==> r.next <= |b|
  {
    if pos == |b| then Short
    else if b[pos] != '$' then Wrong
    else
      var e := FindCrlf(b, pos);
      if e == |b| then Short
      else
        match StoI(b[pos + 1..e])
        case NotANumber => Wrong
        case Number(length) =>
          var next := e + 2 + length + 2;
          // a sum below zero wraps around to a huge unsigned number
          if next < 0 || next > |b| then Short else Token(Sub(b, e + 2, length), next)
  }

  // what begins at each of the first k places
  function Lex(b: string, k: nat): (lx: seq<One>)
    requires k <= |b| + 1
    ensures |lx| == k && forall p :: 0 <= p < k ==> lx[p].Token? ==> lx[p].next <= |b|
  {
    if k == 0 then [] else Lex(b, k - 1) + [TokenAt(b, k - 1)]
  }

  function LexAll(b: string): seq<One> { Lex(b, |b| + 1) }

  lemma {:induction false} LexIs(b: string, k: nat, p: nat)
    requires p < k <= |b| + 1
    ensures Lex(b, k)[p] == TokenAt(b, p)
  {
    if p < k - 1 { LexIs(b, k - 1, p); }
  }

  datatype Scan = Done(tokens: seq<string>, pos: nat) | More | Bad

  predicate Lexed(lx: seq<One>) {
    forall p :: 0 <= p < |lx| ==> lx[p].Token? ==> lx[p].next < |lx|
  }

  // the remaining n bulk strings from pos on
  function Tokens(lx: seq<One>, pos: nat, n: int, tokens: seq<string>): Scan
    requires Lexed(lx) && pos < |lx|
    decreases n
  {
    if n <= 0 then Done(tokens, pos)
    else
      match lx[pos]
      case Short => More
      case Wrong => Bad
      case Token(text, next) => Tokens(lx, next, n - 1, tokens + [text])
  }

  // std::string::substr; a negative count is a huge one
  function Sub(b: string, p: nat, count: int): string
    requires p <= |b|
  {
    if 0 <= count <= |b| - p then b[p..p + count] else b[p..]
  }

  function ParseSpec(b: string): Parsed {
    if b == [] then Incomplete
    else if b[0] != '*' then Error
    else
      var e := FindCrlf(b, 0);
      if e == |b| then Incomplete
      else
        match StoI(b[1..e])
        case NotANumber => Error
        case Number(n) =>
          match Tokens(LexAll(b), e + 2, n, [])
          case More => Incomplete
          case Bad => Error
          case Done(tokens, pos) =>
            if tokens == [] then Error
            else Success(Command(Upper(tokens[0]), tokens[1..]), pos)
  }

  method ReadToken(b: string, pos: nat) returns (r: One)
    requires pos <= |b|
    ensures r == TokenAt(b, pos)
  {
    if pos == |b| { return Short; }
    if b[pos] != '$' { return Wrong; }
    var e := FindCrlf(b, pos);
    if e == |b| { return Short; }
    var length := StoI(b[pos + 1..e]);
    if length.NotANumber? { return Wrong; }
    var next := e + 2 + length.value + 2;
    if next < 0 || next > |b| { return Short; }
    r := Token(Sub(b, e + 2, length.value), next);
  }

  lemma {:induction false} TokensStep(lx: seq<One>, pos: nat, n: int, tokens: seq<string>, text: string, next: nat)
    requires Lexed(lx) && pos < |lx| && n > 0 && lx[pos] == Token(text, next)
    ensures Tokens(lx, pos, n, tokens) == Tokens(lx, next, n - 1, tokens + [text])
  {
  }

  lemma {:induction false} TokensStop(lx: seq<One>, pos: nat, n: int, tokens: seq<string>)
    requires Lexed(lx) && pos < |lx| && n > 0 && !lx[pos].Token?
    ensures Tokens(lx, pos, n, tokens) == if lx[pos].Short? then More else Bad
  {
  }

  // one turn of the loop: an early result, or a token more
  method ReadNext(b: string, pos: nat, n: int, tokens: seq<string>)
    returns (stopped: bool, r: Scan, next: nat, more: seq<string>)
    requires pos <= |b| && n > 0
    ensures stopped ==> r == Tokens(LexAll(b), pos, n, tokens)
    ensures !stopped ==> next <= |b| && Tokens(LexAll(b), pos, n, tokens) == Tokens(LexAll(b), next, n - 1, more)
  {
    var one := ReadToken(b, pos);
    LexIs(b, |b| + 1, pos);
    stopped, r, next, more := !one.Token?, More, pos, tokens;
    if stopped {
      TokensStop(LexAll(b), pos, n, tokens);
      r := if one.Short? then More else Bad;
    } else {
      TokensStep(LexAll(b), pos, n, tokens, one.text, one.next);
      next, more := one.next, tokens + [one.text];
    }
  }

  method ReadTokens(b: string, start: nat, n: int) returns (r: Scan)
    requires start <= |b|
    ensures r == Tokens(LexAll(b), start, n, [])
  {
    var pos: nat, tokens: seq<string>, i := start, [], 0;
    while i < n
      invariant pos <= |b| && 0 <= i && (i <= n || i == 0)
      invariant Tokens(LexAll(b), pos, n - i, tokens) == Tokens(LexAll(b), start, n, [])
    {
      var stopped, early, next, more := ReadNext(b, pos, n - i, tokens);
      if stopped { return early; }
      tokens, pos, i := more, next, i + 1;
    }
    r := Done(tokens, pos);
  }

  // The answer, and what it says of the bytes: an error is one of those of
  // Fails, a wait one of those of Waits, and a command the texts of an array
  // at the front, the first of them in upper case.
  method Parse(b: string) returns (r: Parsed)
    ensures r == ParseSpec(b)
    ensures (r.Error? <==> Fails(b)) && (r.Incomplete? <==> Waits(b))
    ensures r.Success? ==> exists texts: seq<string> ::
      Holds(b, texts, r.bytesRead) && Uppered(texts[0], r.cmd.name) && r.cmd.args == texts[1..]
  {
    ParseAnswers(b);
    if b == [] { return Incomplete; }
    if b[0] != '*' { return Error; }
    var e := FindCrlf(b, 0);
    if e == |b| { return Incomplete; }
    var count := StoI(b[1..e]);
    if count.NotANumber? { return Error; }
    var scan := ReadTokens(b, e + 2, count.value);
    match scan
    case More => r := Incomplete;
    case Bad => r := Error;
    case Done(tokens, pos) =>
      if tokens == [] { return Error; }
      r := Success(Command(Upper(tokens[0]), tokens[1..]), pos);
  }

  // ---------- the printer ----------

  function Line(mark: char, n: nat): string { [mark] + Digits(n) + "\r\n" }

  function Bulk(item: string): string { Line('$', |item|) + item + "\r\n" }

  function Bulks(items: seq<string>): string {
    if items == [] then "" else Bulk(items[0]) + Bulks(items[1..])
  }

  function Printed(items: seq<string>): string { Line('*', |items|) + Bulks(items) }

  // CmdResponse::to_resp of an array
  method ToResp(items: seq<string>) returns (res: string)
    ensures res == Printed(items)
  {
    res := "*" + Digits(|items|) + "\r\n";
    for i := 0 to |items|
      invariant res + Bulks(items[i..]) == Printed(items)
    {
      ghost var rest := items[i..];
      assert rest[0] == items[i] && rest[1..] == items[i + 1..];
      var bulk := "$" + Digits(|items[i]|) + "\r\n" + items[i] + "\r\n";
      assert bulk == Bulk(items[i]);
      res := res + bulk;
    }
  }

  // ---------- numbers ----------

  lemma {:induction false} RunOfAll(s: string)
    requires AllDigits(s)
    ensures DigitRun(s) == |s|
  {
    if s != [] { RunOfAll(s[1..]); }
  }

  lemma {:induction false} ValueOfDigits(n: nat)
    ensures Value(Digits(n)) == n
  {
    var d := [(n % 10 + 48) as char];
    if n < 10 {
      assert d[..0] == [];
    } else {
      ValueOfDigits(n / 10);
      assert (Digits(n / 10) + d)[..|Digits(n / 10)|] == Digits(n / 10);
    }
  }

  lemma {:induction false} StoIDigits(n: nat)
    requires n <= IntMax
    ensures StoI(Digits(n)) == Number(n)
  {
    var s := Digits(n);
    assert IsDigit(s[0]) && SkipSpaces(s) == s;
    RunOfAll(s);
    ValueOfDigits(n);
    assert s[..|s|] == s;
  }

  // ---------- lines ----------

  // the first line end from p on, when nothing before it is a '\r'
  lemma {:induction false} CrlfAt(b: string, p: nat, k: nat)
    requires p <= k && k + 2 <= |b| && b[k] == '\r' && b[k + 1] == '\n'
    requires forall j :: p <= j < k ==> b[j] != '\r'
    ensures FindCrlf(b, p) == k
    decreases k - p
  {
    if p < k { CrlfAt(b, p + 1, k); }
  }

  lemma {:induction false} NoCrlf(b: string, p: nat)
    requires p <= |b| && forall j :: p <= j < |b| - 1 ==> b[j] != '\r'
    ensures FindCrlf(b, p) == |b|
    decreases |b| - p
  {
    if p + 1 < |b| { NoCrlf(b, p + 1); }
  }

  // b continues at pos with s
  ghost predicate At(b: string, pos: nat, s: string) {
    pos + |s| <= |b| && b[pos..pos + |s|] == s
  }

  lemma {:induction false} AtParts(b: string, pos: nat, s: string, t: string)
    requires At(b, pos, s + t)
    ensures At(b, pos, s) && At(b, pos + |s|, t)
  {
    assert b[pos..pos + |s + t|][..|s|] == b[pos..pos + |s|];
    assert b[pos..pos + |s + t|][|s|..] == b[pos + |s|..pos + |s| + |t|];
  }

  lemma {:induction false} AtChar(b: string, pos: nat, s: string, k: nat)
    requires At(b, pos, s) && k < |s|
    ensures b[pos + k] == s[k]
  {
    assert b[pos..pos + |s|][k] == b[pos + k];
  }

  // a whole line is found, and its number read
  lemma {:induction false} LineFound(b: string, pos: nat, mark: char, n: nat)
    requires mark != '\r' && At(b, pos, Line(mark, n))
    ensures var e := FindCrlf(b, pos);
      pos < |b| && b[pos] == mark && e == pos + 1 + |Digits(n)| && e + 2 <= |b| && b[pos + 1..e] == Digits(n)
  {
    var d := Digits(n);
    var line := Line(mark, n);
    var k := pos + 1 + |d|;
    forall j | pos <= j < k ensures b[j] != '\r' {
      AtChar(b, pos, line, j - pos);
      if j > pos { assert line[j - pos] == d[j - pos - 1]; }
    }
    AtChar(b, pos, line, 0);
    AtChar(b, pos, line, 1 + |d|);
    AtChar(b, pos, line, 2 + |d|);
    CrlfAt(b, pos, k);
    assert line == [mark] + (d + "\r\n");
    AtParts(b, pos, [mark], d + "\r\n");
    AtParts(b, pos + 1, d, "\r\n");
  }

  // of a line cut short the end is not found
  lemma {:induction false} LineCut(b: string, pos: nat, mark: char, n: nat)
    requires mark != '\r' && CutAt(b, pos, Line(mark, n))
    ensures FindCrlf(b, pos) == |b|
  {
    var d, line := Digits(n), Line(mark, n);
    forall j | pos <= j < |b| - 1 ensures b[j] != '\r' {
      assert b[j] == b[pos..][j - pos] == line[j - pos];
      if j > pos { assert line[j - pos] == d[j - pos - 1]; }
    }
    NoCrlf(b, pos);
  }

  // ---------- bulk strings ----------

  // every token fits, with its line end, in an int
  predicate TokenOk(item: string) { |item| <= IntMax - 2 }

  lemma {:induction false} BulkRead(b: string, pos: nat, item: string)
    requires TokenOk(item) && At(b, pos, Bulk(item))
    ensures TokenAt(b, pos) == Token(item, pos + |Bulk(item)|)
  {
    var line := Line('$', |item|);
    assert Bulk(item) == line + (item + "\r\n");
    AtParts(b, pos, line, item + "\r\n");
    AtParts(b, pos + |line|, item, "\r\n");
    LineFound(b, pos, '$', |item|);
    StoIDigits(|item|);
  }

  // of a bulk string cut short the parser waits for the rest
  lemma {:induction false} BulkCut(b: string, pos: nat, item: string)
    requires TokenOk(item) && CutAt(b, pos, Bulk(item))
    ensures TokenAt(b, pos) == Short
  {
    var line, rest := Line('$', |item|), item + "\r\n";
    assert Bulk(item) == line + rest;
    if pos < |b| {
      assert b[pos] == b[pos..][0] == line[0];
      if |b| - pos < |line| {
        CutFirst(b, pos, line, rest);
        LineCut(b, pos, '$', |item|);
      } else {
        CutRest(b, pos, line, rest);
        LineFound(b, pos, '$', |item|);
        StoIDigits(|item|);
      }
    }
  }

  lemma {:induction false} HeadToBack<T>(a: seq<T>, s: seq<T>)
    requires s != []
    ensures a + [s[0]] + s[1..] == a + s
  {
  }

  ghost predicate TokensOk(items: seq<string>) { forall i :: 0 <= i < |items| ==> TokenOk(items[i]) }

  lemma {:induction false} ReadFirst(b: string, lx: seq<One>, pos: nat, first: string, rest: string, n: int,
                                     tokens: seq<string>, next: nat)
    requires lx == LexAll(b) && TokenOk(first) && At(b, pos, Bulk(first) + rest) && n > 0
    requires next == pos + |Bulk(first)|
    ensures At(b, next, rest)
    ensures Tokens(lx, pos, n, tokens) == Tokens(lx, next, n - 1, tokens + [first])
  {
    AtParts(b, pos, Bulk(first), rest);
    LexIs(b, |b| + 1, pos);
    BulkRead(b, pos, first);
    TokensStep(lx, pos, n, tokens, first, next);
  }

  lemma {:induction false} BulksRead(b: string, lx: seq<One>, pos: nat, items: seq<string>, tokens: seq<string>,
                                     end: nat)
    requires lx == LexAll(b)
    requires pos <= |b| && TokensOk(items) && At(b, pos, Bulks(items)) && end == pos + |Bulks(items)|
    ensures Tokens(lx, pos, |items|, tokens) == Done(tokens + items, end)
    decreases |items|
  {
    if items == [] {
      assert tokens + items == tokens;
    } else {
      var first, rest := items[0], items[1..];
      var next, more := pos + |Bulk(first)|, tokens + [first];
      ReadFirst(b, lx, pos, first, Bulks(rest), |items|, tokens, next);
      BulksRead(b, lx, next, rest, more, end);
      HeadToBack(tokens, items);
    }
  }

  // b ends before s, with which it continues at pos, is complete
  ghost predicate CutAt(b: string, pos: nat, s: string) {
    pos <= |b| && |b| - pos < |s| && b[pos..] == s[..|b| - pos]
  }

  lemma {:induction false} CutRest(b: string, pos: nat, first: string, rest: string)
    requires CutAt(b, pos, first + rest) && |b| - pos >= |first|
    ensures At(b, pos, first) && CutAt(b, pos + |first|, rest)
  {
    var tail := b[pos..];
    assert b[pos..pos + |first|] == tail[..|first|];
    assert b[pos + |first|..] == tail[|first|..];
  }

  lemma {:induction false} CutFirst(b: string, pos: nat, first: string, rest: string)
    requires CutAt(b, pos, first + rest) && |b| - pos < |first|
    ensures CutAt(b, pos, first)
  {
  }

  lemma {:induction false} CutInFirst(b: string, lx: seq<One>, pos: nat, first: string, rest: string, n: int,
                                      tokens: seq<string>)
    requires lx == LexAll(b) && n > 0
    requires TokenOk(first) && CutAt(b, pos, Bulk(first) + rest) && |b| - pos < |Bulk(first)|
    ensures Tokens(lx, pos, n, tokens) == More
  {
    CutFirst(b, pos, Bulk(first), rest);
    LexIs(b, |b| + 1, pos);
    BulkCut(b, pos, first);
    TokensStop(lx, pos, n, tokens);
  }

  lemma {:induction false} CutAfterFirst(b: string, lx: seq<One>, pos: nat, first: string, rest: string, n: int,
                                         tokens: seq<string>, next: nat)
    requires lx == LexAll(b) && n > 0
    requires TokenOk(first) && CutAt(b, pos, Bulk(first) + rest)
    requires next == pos + |Bulk(first)| <= |b|
    ensures CutAt(b, next, rest)
    ensures Tokens(lx, pos, n, tokens) == Tokens(lx, next, n - 1, tokens + [first])
  {
    CutRest(b, pos, Bulk(first), rest);
    LexIs(b, |b| + 1, pos);
    BulkRead(b, pos, first);
    TokensStep(lx, pos, n, tokens, first, next);
  }

  lemma {:induction false} BulksCut(b: string, lx: seq<One>, pos: nat, items: seq<string>, tokens: seq<string>)
    requires lx == LexAll(b) && TokensOk(items) && CutAt(b, pos, Bulks(items))
    ensures Tokens(lx, pos, |items|, tokens) == More
    decreases |items|
  {
    var first, rest := items[0], items[1..];
    var next := pos + |Bulk(first)|;
    if |b| < next {
      CutInFirst(b, lx, pos, first, Bulks(rest), |items|, tokens);
    } else {
      CutAfterFirst(b, lx, pos, first, Bulks(rest), |items|, tokens, next);
      BulksCut(b, lx, next, rest, tokens + [first]);
    }
  }

  // ---------- whole commands ----------

  ghost predicate CommandOk(items: seq<string>) {
    items != [] && |items| <= IntMax && TokensOk(items)
  }

  function CommandOf(items: seq<string>): Command
    requires items != []
  {
    Command(Upper(items[0]), items[1..])
  }

  lemma {:induction false} AtFront(p: string, suffix: string)
    ensures At(p + suffix, 0, p)
  {
  }

  // the count line is read, and the bulk strings from there on
  lemma {:induction false} CountRead(b: string, n: nat)
    requires n <= IntMax && At(b, 0, Line('*', n))
    ensures |Line('*', n)| <= |b|
    ensures ParseSpec(b) == match Tokens(LexAll(b), |Line('*', n)|, n, [])
      case More => Incomplete
      case Bad => Error
      case Done(tokens, pos) =>
        if tokens == [] then Error else Success(Command(Upper(tokens[0]), tokens[1..]), pos)
  {
    LineFound(b, 0, '*', n);
    StoIDigits(n);
  }

  // a printed array is read back, whatever follows it, and no more is taken
  lemma {:induction false} RoundTrip(items: seq<string>, suffix: string)
    requires CommandOk(items)
    ensures ParseSpec(Printed(items) + suffix) == Success(CommandOf(items), |Printed(items)|)
  {
    var b, line := Printed(items) + suffix, Line('*', |items|);
    AtFront(Printed(items), suffix);
    AtParts(b, 0, line, Bulks(items));
    CountRead(b, |items|);
    BulksRead(b, LexAll(b), |line|, items, [], |Printed(items)|);
    assert [] + items == items;
  }

  // every strict prefix makes the parser wait
  lemma {:induction false} PrefixWaits(items: seq<string>, n: nat)
    requires CommandOk(items) && n < |Printed(items)|
    ensures ParseSpec(Printed(items)[..n]) == Incomplete
  {
    var line := Line('*', |items|);
    var b := Printed(items)[..n];
    assert CutAt(b, 0, line + Bulks(items)) by { assert b[0..] == b; }
    if n > 0 {
      assert b[0] == line[0];
      if n < |line| {
        CutFirst(b, 0, line, Bulks(items));
        LineCut(b, 0, '*', |items|);
      } else {
        CutRest(b, 0, line, Bulks(items));
        CountRead(b, |items|);
        BulksCut(b, LexAll(b), |line|, items, []);
      }
    }
  }

  // ---------- a stream of commands in chunks ----------

  function Stream(commands: seq<seq<string>>): string {
    if commands == [] then "" else Printed(commands[0]) + Stream(commands[1..])
  }

  function Commands(commands: seq<seq<string>>): seq<Command>
    requires forall i :: 0 <= i < |commands| ==> commands[i] != []
  {
    if commands == [] then [] else [CommandOf(commands[0])] + Commands(commands[1..])
  }

  function Concat(chunks: seq<string>): string {
    if chunks == [] then "" else Concat(chunks[..|chunks| - 1]) + chunks[|chunks| - 1]
  }

  ghost predicate AllCommandsOk(commands: seq<seq<string>>) {
    forall i :: 0 <= i < |commands| ==> CommandOk(commands[i])
  }

  // got are the first commands of the stream, rest is too short for one more
  ghost predicate Received(commands: seq<seq<string>>, bytes: string, got: seq<Command>, rest: string,
                           left: seq<seq<string>>)
  {
    AllCommandsOk(commands) && AllCommandsOk(left)
    && got + Commands(left) == Commands(commands)
    && |rest| <= |Stream(left)| && rest == Stream(left)[..|rest|]
    && bytes + Stream(left)[|rest|..] == Stream(commands)
  }

  ghost predicate Drained(rest: string, left: seq<seq<string>>) {
    left == [] || |rest| < |Printed(left[0])|
  }

  // what the parser says about bytes in front of the commands left
  lemma {:induction false} NextCommand(rest: string, left: seq<seq<string>>)
    requires AllCommandsOk(left) && |rest| <= |Stream(left)| && rest == Stream(left)[..|rest|]
    ensures if Drained(rest, left) then ParseSpec(rest) == Incomplete
      else ParseSpec(rest) == Success(CommandOf(left[0]), |Printed(left[0])|)
  {
    if left != [] {
      var p := Printed(left[0]);
      if |rest| < |p| {
        assert rest == p[..|rest|];
        PrefixWaits(left[0], |rest|);
      } else {
        assert rest[..|p|] == p && rest == p + rest[|p|..];
        RoundTrip(left[0], rest[|p|..]);
      }
    }
  }

  lemma {:induction false} TakeCommand(commands: seq<seq<string>>, bytes: string, got: seq<Command>, rest: string,
                                       left: seq<seq<string>>)
    requires Received(commands, bytes, got, rest, left) && !Drained(rest, left)
    ensures Received(commands, bytes, got + [CommandOf(left[0])], rest[|Printed(left[0])|..], left[1..])
  {
    HeadToBackCommands(got, left);
    TakeFront(Printed(left[0]), Stream(left[1..]), Stream(left), rest);
  }

  lemma {:induction false} TakeFront(p: string, after: string, all: string, rest: string)
    requires all == p + after && |p| <= |rest| <= |all| && rest == all[..|rest|]
    ensures |rest[|p|..]| <= |after| && rest[|p|..] == after[..|rest[|p|..]|]
    ensures all[|rest|..] == after[|rest[|p|..]|..]
  {
    var n := |rest| - |p|;
    assert rest[|p|..] == after[..n];
    assert all[|rest|..] == after[n..];
  }

  lemma {:induction false} HeadToBackCommands(got: seq<Command>, left: seq<seq<string>>)
    requires left != [] && forall i :: 0 <= i < |left| ==> left[i] != []
    ensures got + [CommandOf(left[0])] + Commands(left[1..]) == got + Commands(left)
  {
  }

  lemma {:induction false} ChunkFits(all: string, bytes: string, rest: string, left: string, chunk: string)
    requires |rest| <= |left| && rest == left[..|rest|] && bytes + left[|rest|..] == all
    requires |bytes + chunk| <= |all| && bytes + chunk == all[..|bytes + chunk|]
    ensures |rest + chunk| <= |left| && rest + chunk == left[..|rest + chunk|]
    ensures (bytes + chunk) + left[|rest + chunk|..] == all
  {
    var tail := left[|rest|..];
    assert all[|bytes|..] == tail;
    assert chunk == (bytes + chunk)[|bytes|..] == tail[..|chunk|];
    assert tail == chunk + tail[|chunk|..];
    assert left[|rest + chunk|..] == tail[|chunk|..];
  }

  lemma {:induction false} MoreBytes(commands: seq<seq<string>>, bytes: string, got: seq<Command>, rest: string,
                                     left: seq<seq<string>>, chunk: string)
    requires Received(commands, bytes, got, rest, left)
    requires |bytes + chunk| <= |Stream(commands)| && bytes + chunk == Stream(commands)[..|bytes + chunk|]
    ensures Received(commands, bytes + chunk, got, rest + chunk, left)
  {
    ChunkFits(Stream(commands), bytes, rest, Stream(left), chunk);
  }

  // parse as long as there are whole commands
  method Drain(buffer: string, got0: seq<Command>, ghost commands: seq<seq<string>>, ghost bytes: string,
               ghost left0: seq<seq<string>>)
    returns (got: seq<Command>, rest: string, ghost left: seq<seq<string>>)
    requires Received(commands, bytes, got0, buffer, left0)
    ensures Received(commands, bytes, got, rest, left) && Drained(rest, left)
  {
    got, rest, left := got0, buffer, left0;
    while true
      invariant Received(commands, bytes, got, rest, left)
      decreases |left|
    {
      var r := Parse(rest);
      NextCommand(rest, left);
      if !r.Success? { return; }
      TakeCommand(commands, bytes, got, rest, left);
      got, rest, left := got + [r.cmd], rest[r.bytesRead..], left[1..];
    }
  }

  // However the bytes of a stream of commands are cut into chunks, the same
  // commands come out: those that have arrived whole.
  method Receive(chunks: seq<string>, ghost commands: seq<seq<string>>)
    returns (got: seq<Command>, rest: string, ghost left: seq<seq<string>>)
    requires AllCommandsOk(commands) && Concat(chunks) <= Stream(commands)
    ensures Received(commands, Concat(chunks), got, rest, left) && Drained(rest, left)
    ensures Concat(chunks) == Stream(commands) ==> got == Commands(commands) && rest == ""
  {
    got, rest, left := [], "", commands;
    for i := 0 to |chunks|
      invariant Received(commands, Concat(chunks[..i]), got, rest, left) && Drained(rest, left)
    {
      ConcatPrefix(chunks, i + 1);
      assert chunks[..i + 1][..i] == chunks[..i];
      MoreBytes(commands, Concat(chunks[..i]), got, rest, left, chunks[i]);
      got, rest, left := Drain(rest + chunks[i], got, commands, Concat(chunks[..i + 1]), left);
    }
    assert chunks[..|chunks|] == chunks;
    if Concat(chunks) == Stream(commands) { AllReceived(commands, got, rest, left); }
  }

  lemma {:induction false} ConcatPrefix(chunks: seq<string>, k: nat)
    requires k <= |chunks|
    ensures Concat(chunks[..k]) <= Concat(chunks)
    decreases |chunks| - k
  {
    if k < |chunks| {
      assert chunks[..k + 1][..k] == chunks[..k];
      ConcatPrefix(chunks, k + 1);
    } else {
      assert chunks[..k] == chunks;
    }
  }

  lemma {:induction false} StreamHead(commands: seq<seq<string>>)
    requires commands != []
    ensures |Stream(commands)| >= |Printed(commands[0])|
  {
  }

  lemma {:induction false} AllReceived(commands: seq<seq<string>>, got: seq<Command>, rest: string,
                                       left: seq<seq<string>>)
    requires Received(commands, Stream(commands), got, rest, left) && Drained(rest, left)
    ensures got == Commands(commands) && rest == ""
  {
    if left != [] { StreamHead(left); }
    assert |Stream(left)[|rest|..]| == 0;
  }

  // ---------- the library functions against the bytes ----------

  lemma {:induction false} FoundEnd(b: string, p: nat)
    requires p <= |b|
    ensures if FindCrlf(b, p) < |b| then LineEnd(b, p, FindCrlf(b, p)) else NoLineEnd(b, p)
    decreases |b| - p
  {
    if p + 1 < |b| && !EndsLine(b, p) {
      FoundEnd(b, p + 1);
      var e := FindCrlf(b, p + 1);
      if e < |b| {
        forall j | p <= j < e ensures !EndsLine(b, j) { }
      }
    }
  }

  lemma {:induction false} EndFound(b: string, p: nat, e: nat)
    requires LineEnd(b, p, e)
    ensures FindCrlf(b, p) == e
  {
    FoundEnd(b, p);
    assert EndsLine(b, e);
    if FindCrlf(b, p) < |b| { LineEndOnce(b, p, FindCrlf(b, p), e); }
  }

  lemma {:induction false} EndNotFound(b: string, p: nat)
    requires p <= |b| && NoLineEnd(b, p)
    ensures FindCrlf(b, p) == |b|
  {
    FoundEnd(b, p);
    var e: int := FindCrlf(b, p);
    assert !EndsLine(b, e);
  }

  lemma {:induction false} SpacesSkipped(s: string, a: nat)
    requires a <= |s| && (forall i :: 0 <= i < a ==> Space(s[i])) && (a < |s| ==> !Space(s[a]))
    ensures SkipSpaces(s) == s[a..]
  {
    if a > 0 {
      var t := s[1..];
      forall i | 0 <= i < a - 1 ensures Space(t[i]) { assert t[i] == s[i + 1]; }
      assert IsSpace(s[0]) by { assert Space(s[0]); }
      SpacesSkipped(t, a - 1);
    }
  }

  function SpaceRun(s: string): (n: nat)
    ensures n <= |s| && (forall i :: 0 <= i < n ==> Space(s[i])) && (n < |s| ==> !Space(s[n]))
  {
    if s != [] && Space(s[0]) then
      var n := 1 + SpaceRun(s[1..]);
      assert forall i :: 0 < i < n ==> s[i] == s[1..][i - 1];
      n
    else 0
  }

  lemma {:induction false} RunEnds(s: string, n: nat)
    requires n <= |s| && (forall i :: 0 <= i < n ==> Figure(s[i])) && (n < |s| ==> !Figure(s[n]))
    ensures DigitRun(s) == n
  {
    if n > 0 {
      var t := s[1..];
      forall i | 0 <= i < n - 1 ensures Figure(t[i]) { assert t[i] == s[i + 1]; }
      assert IsDigit(s[0]) by { assert Figure(s[0]); }
      RunEnds(t, n - 1);
    }
  }

  lemma {:induction false} RunIs(s: string)
    ensures forall i :: 0 <= i < DigitRun(s) ==> Figure(s[i])
    ensures DigitRun(s) < |s| ==> !Figure(s[DigitRun(s)])
  {
    if s != [] && IsDigit(s[0]) {
      RunIs(s[1..]);
      assert forall i :: 0 < i < |s| ==> s[i] == s[1..][i - 1];
    }
  }

  ghost predicate Figures(s: string) { forall i :: 0 <= i < |s| ==> Figure(s[i]) }

  lemma {:induction false} ValueFront(c: char, t: string)
    requires IsDigit(c) && AllDigits(t) && AllDigits([c] + t)
    ensures Value([c] + t) == DigitValue(c) * Ten(|t|) + Value(t)
  {
    var s := [c] + t;
    if t == [] {
      assert s[..0] == [];
    } else {
      var n := |t| - 1;
      assert s[..|s| - 1] == [c] + t[..n];
      ValueFront(c, t[..n]);
      TimesTen(DigitValue(c), Ten(n), Value(t[..n]), DigitValue(t[n]));
    }
  }

  lemma {:induction false} TimesTen(d: nat, p: nat, v: nat, last: nat)
    ensures (d * p + v) * 10 + last == d * (10 * p) + (v * 10 + last)
  {
  }

  lemma {:induction false} ValueIsDecimal(s: string)
    requires Figures(s) && AllDigits(s)
    ensures Value(s) == Decimal(s)
  {
    if s != [] {
      var t := s[1..];
      assert AllDigits(t) by { forall i | 0 <= i < |t| ensures IsDigit(t[i]) { assert t[i] == s[i + 1]; } }
      assert Figures(t) by { forall i | 0 <= i < |t| ensures Figure(t[i]) { assert t[i] == s[i + 1]; } }
      assert s == [s[0]] + t;
      ValueFront(s[0], t);
      ValueIsDecimal(t);
    }
  }

  // the sign and the figures behind the spaces
  ghost predicate Split(s: string, a: nat, c: nat, u: string) {
    a <= c <= |s| && u == s[c..]
    && (c == a || (c == a + 1 && (s[a] == '+' || s[a] == '-')))
    && (c == a && a < |s| ==> s[a] != '+' && s[a] != '-')
  }

  lemma {:induction false} SplitStoI(s: string, a: nat, c: nat, u: string)
    requires Split(s, a, c, u) && SkipSpaces(s) == s[a..]
    ensures AllDigits(u[..DigitRun(u)])
    ensures var v: int := Value(u[..DigitRun(u)]);
      StoI(s) == if DigitRun(u) == 0 then NotANumber
                 else if c > a && s[a] == '-' then (if -v < -IntMax - 1 then NotANumber else Number(-v))
                 else if v > IntMax then NotANumber else Number(v)
  {
    DigitRunDigits(u);
    assert c > a ==> s[a..][1..] == u;
  }

  lemma {:induction false} ReadsSplit(s: string, v: int, a: nat, c: nat, e: nat)
    requires ReadsAt(s, v, a, c, e)
    ensures Split(s, a, c, s[c..]) && SkipSpaces(s) == s[a..] && DigitRun(s[c..]) == e - c
    ensures Figures(s[c..e]) && s[c..][..e - c] == s[c..e]
  {
    assert Figure(s[c]);
    assert !Space(s[a]);
    SpacesSkipped(s, a);
    RunEnds(s[c..], e - c);
  }

  lemma {:induction false} ReadOnce(s: string, v: int)
    requires Reads(s, v)
    ensures StoI(s) == Number(v)
  {
    var a: nat, c: nat, e: nat :| ReadsAt(s, v, a, c, e);
    ReadsSplit(s, v, a, c, e);
    SplitStoI(s, a, c, s[c..]);
    ValueIsDecimal(s[c..e]);
  }

  // std::stoi reads exactly this number
  lemma {:induction false} StoIReads(s: string)
    ensures match StoI(s)
      case NotANumber => Unreadable(s)
      case Number(v) => Reads(s, v) && forall w: int :: Reads(s, w) ==> w == v
  {
    forall w: int | Reads(s, w) ensures StoI(s) == Number(w) { ReadOnce(s, w); }
    if StoI(s).Number? { NumberRead(s, StoI(s).value); }
  }

  lemma {:induction false} NumberRead(s: string, v: int)
    requires StoI(s) == Number(v)
    ensures Reads(s, v)
  {
    var a := SpaceRun(s);
    SpacesSkipped(s, a);
    var c := if a < |s| && (s[a] == '+' || s[a] == '-') then a + 1 else a;
    var u := s[c..];
    SplitStoI(s, a, c, u);
    FiguresAt(s, c, u);
    assert ReadsAt(s, v, a, c, c + DigitRun(u));
  }

  // the figures of a number stand where it does
  lemma {:induction false} FiguresAt(s: string, c: nat, u: string)
    requires c <= |s| && u == s[c..]
    ensures AllDigits(u[..DigitRun(u)])
    ensures var e := c + DigitRun(u);
      (forall i :: c <= i < e ==> Figure(s[i])) && (e < |s| ==> !Figure(s[e]))
      && Value(u[..DigitRun(u)]) == Decimal(s[c..e])
  {
    RunIs(u);
    DigitRunDigits(u);
    var e := c + DigitRun(u);
    assert u[..DigitRun(u)] == s[c..e];
    forall i | c <= i < e ensures Figure(s[i]) { assert s[i] == u[i - c]; }
    assert e < |s| ==> s[e] == u[e - c];
    ValueIsDecimal(s[c..e]);
  }

  // ---------- what the answers mean ----------

  lemma {:induction false} SizedIs(b: string, p: nat, e: nat, n: int)
    requires Sized(b, p, e, n)
    ensures p < |b| && b[p] == '$' && FindCrlf(b, p) == e && p < e && e + 2 <= |b| && StoI(b[p + 1..e]) == Number(n)
  {
    EndFound(b, p, e);
    ReadOnce(b[p + 1..e], n);
  }

  lemma {:induction false} LengthRead(b: string, p: nat)
    requires p < |b| && b[p] == '$' && FindCrlf(b, p) < |b|
    ensures LineEnd(b, p, FindCrlf(b, p)) && p < FindCrlf(b, p)
    ensures match StoI(b[p + 1..FindCrlf(b, p)])
      case NotANumber => Unreadable(b[p + 1..FindCrlf(b, p)])
      case Number(n) => Sized(b, p, FindCrlf(b, p), n)
  {
    FoundEnd(b, p);
    StoIReads(b[p + 1..FindCrlf(b, p)]);
  }

  // what begins at a place
  lemma {:induction false} OneMeans(b: string, p: nat)
    requires p <= |b|
    ensures match TokenAt(b, p)
      case Short => Partial(b, p)
      case Wrong => RespBytes.Wrong(b, p)
      case Token(text, next) => Whole(b, p, text, next)
  {
    if p < |b| && b[p] == '$' {
      FoundEnd(b, p);
      var e := FindCrlf(b, p);
      if e < |b| {
        LengthRead(b, p);
        if StoI(b[p + 1..e]).Number? { LengthMeans(b, p, e, StoI(b[p + 1..e]).value); }
      }
    }
  }

  lemma {:induction false} LengthMeans(b: string, p: nat, e: nat, n: int)
    requires Sized(b, p, e, n)
    ensures e + 2 + n + 2 < 0 ==> Negative(b, p)
    ensures e + 2 + n + 2 > |b| ==> TooLong(b, p)
    ensures 0 <= e + 2 + n + 2 <= |b| ==> Whole(b, p, Sub(b, e + 2, n), e + 2 + n + 2)
  {
    var q := e + 2 + n + 2;
    if 0 <= q <= |b| { assert WholeAt(b, p, Sub(b, e + 2, n), q, e, n); }
  }

  lemma {:induction false} WholeIs(b: string, p: nat, text: string, q: nat)
    requires Whole(b, p, text, q)
    ensures p < |b| && TokenAt(b, p) == Token(text, q)
  {
    var e: nat, n: int :| WholeAt(b, p, text, q, e, n);
    WholeAtIs(b, p, text, q, e, n);
  }

  lemma {:induction false} WholeAtIs(b: string, p: nat, text: string, q: nat, e: nat, n: int)
    requires WholeAt(b, p, text, q, e, n)
    ensures p < |b| && TokenAt(b, p) == Token(text, q)
  {
    SizedIs(b, p, e, n);
  }

  lemma {:induction false} PartialIs(b: string, p: nat)
    requires Partial(b, p)
    ensures p <= |b| && TokenAt(b, p) == Short
  {
    if TooLong(b, p) {
      var e: nat, n: int :| Sized(b, p, e, n) && e + 2 + n + 2 > |b|;
      SizedIs(b, p, e, n);
    } else if Negative(b, p) {
      var e: nat, n: int :| Sized(b, p, e, n) && e + 2 + n + 2 < 0;
      SizedIs(b, p, e, n);
    } else if p < |b| {
      EndNotFound(b, p);
    }
  }

  lemma {:induction false} WrongIs(b: string, p: nat)
    requires RespBytes.Wrong(b, p)
    ensures TokenAt(b, p) == Wrong
  {
    if b[p] == '$' {
      var e: nat :| LineEnd(b, p, e) && Unreadable(b[p + 1..e]);
      EndFound(b, p, e);
      StoIReads(b[p + 1..e]);
    }
  }

  lemma {:induction false} StepOn(b: string, p: nat, text: string, m: nat, texts: seq<string>, q: nat)
    requires Whole(b, p, text, m) && Steps(b, m, texts, q)
    ensures Steps(b, p, [text] + texts, q)
  {
    var all := [text] + texts;
    assert all[0] == text && all[1..] == texts;
  }

  // n more bulk strings behind these tokens come to r: they have these texts
  // and lead to q
  ghost predicate Leads(b: string, n: int, tokens: seq<string>, texts: seq<string>, q: nat, r: Scan) {
    match r
    case More => |texts| < n && Partial(b, q)
    case Bad => |texts| < n && RespBytes.Wrong(b, q)
    case Done(ts, pos) => ts == tokens + texts && pos == q && |texts| == if n < 0 then 0 else n
  }

  lemma {:induction false} LeadsOn(b: string, n: int, tokens: seq<string>, text: string, texts: seq<string>, q: nat,
                                   r: Scan)
    requires n > 0 && Leads(b, n - 1, tokens + [text], texts, q, r)
    ensures Leads(b, n, tokens, [text] + texts, q, r)
  {
    assert tokens + [text] + texts == tokens + ([text] + texts);
  }

  lemma {:induction false} LeadsNowhere(b: string, lx: seq<One>, p: nat, n: int, tokens: seq<string>)
    requires lx == LexAll(b) && p <= |b| && (n > 0 ==> !lx[p].Token?)
    ensures Leads(b, n, tokens, [], p, Tokens(lx, p, n, tokens))
  {
    if n > 0 {
      LexIs(b, |b| + 1, p);
      OneMeans(b, p);
      TokensStop(lx, p, n, tokens);
    }
  }

  // where the bulk strings lead that are read
  lemma {:induction false} TokensMean(b: string, lx: seq<One>, p: nat, n: int, tokens: seq<string>, r: Scan)
    returns (texts: seq<string>, q: nat)
    requires lx == LexAll(b) && p <= |b| && r == Tokens(lx, p, n, tokens)
    ensures Steps(b, p, texts, q) && Leads(b, n, tokens, texts, q, r)
    decreases n
  {
    if n > 0 && lx[p].Token? {
      var text, next, more := OneToken(b, lx, p, n, tokens, r);
      var rest;
      rest, q := TokensMean(b, lx, next, n - 1, more, r);
      StepOn(b, p, text, next, rest, q);
      LeadsOn(b, n, tokens, text, rest, q, r);
      texts := [text] + rest;
    } else {
      LeadsNowhere(b, lx, p, n, tokens);
      texts, q := [], p;
    }
  }

  lemma {:induction false} NextTokens(lx: seq<One>, p: nat, n: int, tokens: seq<string>, text: string, next: nat,
                                      r: Scan, more: seq<string>)
    requires Lexed(lx) && p < |lx| && n > 0 && lx[p] == Token(text, next)
    requires r == Tokens(lx, p, n, tokens) && more == tokens + [text]
    ensures r == Tokens(lx, next, n - 1, more)
  {
  }

  lemma {:induction false} OneToken(b: string, lx: seq<One>, p: nat, n: int, tokens: seq<string>, r: Scan)
    returns (text: string, next: nat, more: seq<string>)
    requires lx == LexAll(b) && p <= |b| && n > 0 && lx[p].Token? && r == Tokens(lx, p, n, tokens)
    ensures next <= |b| && Whole(b, p, text, next)
    ensures more == tokens + [text] && r == Tokens(lx, next, n - 1, more)
  {
    text, next := TokenHere(b, lx, p);
    more := tokens + [text];
    NextTokens(lx, p, n, tokens, text, next, r, more);
  }

  lemma {:induction false} TokenHere(b: string, lx: seq<One>, p: nat) returns (text: string, next: nat)
    requires lx == LexAll(b) && p <= |b| && lx[p].Token?
    ensures lx[p] == Token(text, next) && next <= |b| && Whole(b, p, text, next)
  {
    text, next := lx[p].text, lx[p].next;
    LexIs(b, |b| + 1, p);
    OneMeans(b, p);
  }

  lemma {:induction false} StepRead(b: string, lx: seq<One>, p: nat, text: string, m: nat, n: int, tokens: seq<string>,
                                    r: Scan, more: seq<string>)
    requires lx == LexAll(b) && Whole(b, p, text, m) && n > 0 && p <= |b| && r == Tokens(lx, p, n, tokens)
    requires more == tokens + [text]
    ensures p < |b| && m <= |b| && r == Tokens(lx, m, n - 1, more)
  {
    WholeToken(b, lx, p, text, m);
    NextTokens(lx, p, n, tokens, text, m, r, more);
  }

  lemma {:induction false} WholeToken(b: string, lx: seq<One>, p: nat, text: string, m: nat)
    requires lx == LexAll(b) && Whole(b, p, text, m)
    ensures p < |b| && m <= |b| && lx[p] == Token(text, m)
  {
    WholeIs(b, p, text, m);
    TokenIn(b, lx, p, text, m);
  }

  lemma {:induction false} TokenIn(b: string, lx: seq<One>, p: nat, text: string, m: nat)
    requires lx == LexAll(b) && p <= |b| && TokenAt(b, p) == Token(text, m)
    ensures lx[p] == Token(text, m) && m <= |b|
  {
    LexIs(b, |b| + 1, p);
  }

  lemma {:induction false} FirstStep(b: string, p: nat, texts: seq<string>, q: nat) returns (m: nat)
    requires texts != [] && Steps(b, p, texts, q)
    ensures Whole(b, p, texts[0], m) && Steps(b, m, texts[1..], q)
  {
    m :| Whole(b, p, texts[0], m) && Steps(b, m, texts[1..], q);
  }

  // r is what n more bulk strings from p on come to
  ghost predicate Comes(lx: seq<One>, p: nat, n: int, tokens: seq<string>, r: Scan) {
    Lexed(lx) && p < |lx| && exists m: int :: m == n && r == Tokens(lx, p, m, tokens)
  }

  lemma {:induction false} ComesOn(b: string, lx: seq<One>, p: nat, text: string, m: nat, n: int, tokens: seq<string>,
                                   r: Scan)
    requires lx == LexAll(b) && Whole(b, p, text, m) && n > 0 && Comes(lx, p, n, tokens, r)
    ensures Comes(lx, m, n - 1, tokens + [text], r)
  {
    StepRead(b, lx, p, text, m, n, tokens, r, tokens + [text]);
  }

  // bulk strings that lead on are read
  lemma {:induction false} StepsRead(b: string, lx: seq<One>, p: nat, texts: seq<string>, q: nat, n: int,
                                     tokens: seq<string>, r: Scan)
    requires lx == LexAll(b) && Steps(b, p, texts, q) && n >= |texts| && Comes(lx, p, n, tokens, r)
    ensures Comes(lx, q, n - |texts|, tokens + texts, r)
    decreases |texts|
  {
    if texts == [] {
      assert tokens + texts == tokens;
    } else {
      var m := FirstStep(b, p, texts, q);
      ComesOn(b, lx, p, texts[0], m, n, tokens, r);
      StepsRead(b, lx, m, texts[1..], q, n - 1, tokens + [texts[0]], r);
      HeadToBack(tokens, texts);
    }
  }

  function Answer(r: Scan): Parsed {
    match r
    case More => Incomplete
    case Bad => Error
    case Done(tokens, pos) => if tokens == [] then Error else Success(CommandOf(tokens), pos)
  }

  lemma {:induction false} CountedParse(b: string, e: nat, v: int)
    requires Counted(b, e, v)
    ensures e + 2 <= |b| && ParseSpec(b) == Answer(Tokens(LexAll(b), e + 2, v, []))
  {
    EndFound(b, 0, e);
    ReadOnce(b[1..e], v);
  }

  lemma {:induction false} CountMeans(b: string, e: nat)
    requires b != "" && b[0] == '*' && e == FindCrlf(b, 0) < |b|
    ensures LineEnd(b, 0, e) && 0 < e
    ensures match StoI(b[1..e])
      case NotANumber => Unreadable(b[1..e]) && ParseSpec(b) == Error
      case Number(v) => Counted(b, e, v)
  {
    FoundEnd(b, 0);
    StoIReads(b[1..e]);
  }

  // what comes behind whole bulk strings decides
  lemma {:induction false} ReachedParse(b: string, e: nat, v: int, texts: seq<string>, q: nat)
    requires Reaches(b, e, v, texts, q)
    ensures RespBytes.Wrong(b, q) ==> ParseSpec(b) == Error
    ensures Partial(b, q) ==> ParseSpec(b) == Incomplete
  {
    if RespBytes.Wrong(b, q) { WrongParse(b, e, v, texts, q); }
    if Partial(b, q) { PartialParse(b, e, v, texts, q); }
  }

  lemma {:induction false} WrongParse(b: string, e: nat, v: int, texts: seq<string>, q: nat)
    requires Reaches(b, e, v, texts, q) && RespBytes.Wrong(b, q)
    ensures ParseSpec(b) == Error
  {
    WrongIs(b, q);
    StopsParse(b, e, v, texts, q);
  }

  lemma {:induction false} PartialParse(b: string, e: nat, v: int, texts: seq<string>, q: nat)
    requires Reaches(b, e, v, texts, q) && Partial(b, q)
    ensures ParseSpec(b) == Incomplete
  {
    PartialIs(b, q);
    StopsParse(b, e, v, texts, q);
  }

  lemma {:induction false} StopsParse(b: string, e: nat, v: int, texts: seq<string>, q: nat)
    requires Reaches(b, e, v, texts, q) && q <= |b| && !TokenAt(b, q).Token?
    ensures ParseSpec(b) == if TokenAt(b, q).Short? then Incomplete else Error
  {
    var lx := LexAll(b);
    var r := CountedComes(b, lx, e, v);
    StopsAt(b, lx, e + 2, texts, q, v, r);
  }

  lemma {:induction false} StopsAt(b: string, lx: seq<One>, p: nat, texts: seq<string>, q: nat, v: int, r: Scan)
    requires lx == LexAll(b) && Comes(lx, p, v, [], r) && Steps(b, p, texts, q) && |texts| < v
    requires q <= |b| && !TokenAt(b, q).Token?
    ensures r == if TokenAt(b, q).Short? then More else Bad
  {
    StepsRead(b, lx, p, texts, q, v, [], r);
    EndsHere(b, lx, q, v - |texts|, [] + texts, r);
  }

  lemma {:induction false} EndsHere(b: string, lx: seq<One>, p: nat, n: int, tokens: seq<string>, r: Scan)
    requires lx == LexAll(b) && p <= |b| && !TokenAt(b, p).Token? && Comes(lx, p, n, tokens, r) && n > 0
    ensures r == if TokenAt(b, p).Short? then More else Bad
  {
    LexIs(b, |b| + 1, p);
    EndsIn(lx, p, n, tokens, r);
  }

  lemma {:induction false} CountedComes(b: string, lx: seq<One>, e: nat, v: int) returns (r: Scan)
    requires Counted(b, e, v) && lx == LexAll(b)
    ensures ParseSpec(b) == Answer(r) && Comes(lx, e + 2, v, [], r)
  {
    CountedParse(b, e, v);
    r := Tokens(lx, e + 2, v, []);
  }

  lemma {:induction false} EndsIn(lx: seq<One>, p: nat, n: int, tokens: seq<string>, r: Scan)
    requires Comes(lx, p, n, tokens, r) && n > 0 && !lx[p].Token?
    ensures r == if lx[p].Short? then More else Bad
  {
    TokensStop(lx, p, n, tokens);
  }

  lemma {:induction false} FailsParse(b: string)
    requires Fails(b)
    ensures ParseSpec(b) == Error
  {
    if b[0] == '*' {
      if e: nat :| LineEnd(b, 0, e) && Unreadable(b[1..e]) {
        EndFound(b, 0, e);
        CountMeans(b, e);
        StoIReads(b[1..e]);
      } else if e: nat, v: int :| Counted(b, e, v) && v <= 0 {
        CountedParse(b, e, v);
      } else {
        var e: nat, v: int, texts: seq<string>, q: nat :| Reaches(b, e, v, texts, q) && RespBytes.Wrong(b, q);
        ReachedParse(b, e, v, texts, q);
      }
    }
  }

  lemma {:induction false} WaitsParse(b: string)
    requires Waits(b)
    ensures ParseSpec(b) == Incomplete
  {
    if b != "" {
      if b[0] == '*' && NoLineEnd(b, 0) {
        EndNotFound(b, 0);
      } else {
        var e: nat, v: int, texts: seq<string>, q: nat :| Reaches(b, e, v, texts, q) && Partial(b, q);
        ReachedParse(b, e, v, texts, q);
      }
    }
  }

  lemma {:induction false} HoldsParse(b: string, texts: seq<string>, q: nat)
    requires Holds(b, texts, q)
    ensures ParseSpec(b) == Success(CommandOf(texts), q)
  {
    var e: nat :| Counted(b, e, |texts|) && Steps(b, e + 2, texts, q);
    var r := CountedComes(b, LexAll(b), e, |texts|);
    AllRead(b, LexAll(b), e + 2, texts, q, r);
  }

  lemma {:induction false} AllRead(b: string, lx: seq<One>, p: nat, texts: seq<string>, q: nat, r: Scan)
    requires lx == LexAll(b) && Comes(lx, p, |texts|, [], r) && Steps(b, p, texts, q)
    ensures r == Done(texts, q)
  {
    StepsRead(b, lx, p, texts, q, |texts|, [], r);
    assert [] + texts == texts;
  }

  // what each answer says of the bytes
  lemma {:induction false} ParseMeans(b: string)
    ensures match ParseSpec(b)
      case Error => Fails(b)
      case Incomplete => Waits(b)
      case Success(cmd, q) => exists texts: seq<string> :: Holds(b, texts, q) && cmd == CommandOf(texts)
  {
    if b != "" && b[0] == '*' {
      FoundEnd(b, 0);
      var e := FindCrlf(b, 0);
      if e < |b| {
        CountMeans(b, e);
        if StoI(b[1..e]).Number? { CountedMeans(b, e, StoI(b[1..e]).value); }
      }
    }
  }

  lemma {:induction false} CountedMeans(b: string, e: nat, v: int)
    requires Counted(b, e, v)
    ensures match ParseSpec(b)
      case Error => Fails(b)
      case Incomplete => Waits(b)
      case Success(cmd, q) => exists texts: seq<string> :: Holds(b, texts, q) && cmd == CommandOf(texts)
  {
    CountedParse(b, e, v);
    var r := Tokens(LexAll(b), e + 2, v, []);
    var texts, q := TokensMean(b, LexAll(b), e + 2, v, [], r);
    assert |texts| < v ==> Reaches(b, e, v, texts, q);
    if r.Done? && v > 0 {
      assert [] + texts == texts;
      assert Holds(b, texts, q);
    }
  }

  lemma {:induction false} ParseAnswers(b: string)
    ensures (ParseSpec(b).Error? <==> Fails(b)) && (ParseSpec(b).Incomplete? <==> Waits(b))
    ensures var r := ParseSpec(b);
      r.Success? ==> exists texts: seq<string> ::
        Holds(b, texts, r.bytesRead) && Uppered(texts[0], r.cmd.name) && r.cmd.args == texts[1..]
  {
    ParseMeans(b);
    if Fails(b) { FailsParse(b); }
    if Waits(b) { WaitsParse(b); }
  }

  // ---------- more bytes ----------

  // an error stays one
  lemma {:induction false} ErrorStays(b: string, s: string)
    requires ParseSpec(b) == Error
    ensures ParseSpec(b + s) == Error
  {
    ParseMeans(b);
    FailsStays(b, s);
    FailsParse(b + s);
  }

  lemma {:induction false} StuckWaits(b: string, s: string)
    requires Stuck(b)
    ensures ParseSpec(b + s) == Incomplete
  {
    StuckStays(b, s);
    WaitsParse(b + s);
  }

  const Filler: nat := 0x8000_0002

  function Fill(): string { seq(Filler, i => 'x') }

  // bytes that end every wait which can end: a line end, so far away that no
  // length leads back into the buffer, and more behind it than any length
  function Tail(): string { Fill() + "\r\n" + Fill() }

  lemma {:induction false} TailIs(b: string, all: string)
    requires all == b + Tail()
    ensures |all| == |b| + Filler + 2 + Filler
    ensures forall i :: |b| <= i < |all| ==> all[i] != '$' && all[i] != '*'
    ensures all[|b|] == 'x' && all[|b| + Filler + 2] == 'x'
    ensures EndsLine(all, |b| + Filler)
    ensures forall j :: |b| - 1 <= j < |b| + Filler ==> !EndsLine(all, j)
  {
    assert forall i :: |b| <= i < |all| ==> all[i] == Tail()[i - |b|];
  }

  // a line that is open in b ends in the tail
  lemma {:induction false} LineEnds(b: string, all: string, p: nat)
    requires all == b + Tail() && p <= |b| && NoLineEnd(b, p)
    ensures LineEnd(all, p, |b| + Filler)
  {
    TailIs(b, all);
    forall j | p <= j < |b| + Filler ensures !EndsLine(all, j) {
      assert j < |b| - 1 ==> all[j] == b[j] && all[j + 1] == b[j + 1];
      assert !EndsLine(b, j);
    }
  }

  lemma {:induction false} NumberBound(s: string, n: int)
    requires Reads(s, n)
    ensures -0x8000_0000 <= n <= 0x7FFF_FFFF
  {
  }

  lemma {:induction false} StepsMore(b: string, p: nat, texts: seq<string>, m: nat, text: string, q: nat,
                                     all: seq<string>)
    requires Steps(b, p, texts, m) && Whole(b, m, text, q) && all == texts + [text]
    ensures Steps(b, p, all, q)
    decreases |texts|
  {
    if texts == [] {
      OneStep(b, p, text, q, all);
    } else {
      var k := FirstStep(b, p, texts, m);
      BehindFirst(texts, text, all);
      StepsMore(b, k, texts[1..], m, text, q, all[1..]);
      StepFirst(b, p, all, k, q);
    }
  }

  lemma {:induction false} BehindFirst<T>(s: seq<T>, x: T, all: seq<T>)
    requires s != [] && all == s + [x]
    ensures all[0] == s[0] && all[1..] == s[1..] + [x]
  {
  }

  lemma {:induction false} OneStep(b: string, p: nat, text: string, q: nat, all: seq<string>)
    requires Whole(b, p, text, q) && all == [text]
    ensures Steps(b, p, all, q)
  {
    assert all[0] == text && all[1..] == [];
    assert Steps(b, q, all[1..], q);
    StepFirst(b, p, all, q, q);
  }

  lemma {:induction false} StepFirst(b: string, p: nat, texts: seq<string>, m: nat, q: nat)
    requires texts != [] && Whole(b, p, texts[0], m) && Steps(b, m, texts[1..], q)
    ensures Steps(b, p, texts, q)
  {
  }

  // one whole bulk string more, and behind it none begins
  lemma {:induction false} OneMoreEnds(b: string, e: nat, v: int, texts: seq<string>, p: nat, f: nat, n: int)
    requires Reaches(b, e, v, texts, p) && Sized(b, p, f, n)
    requires 0 <= f + 2 + n + 2 < |b| && b[f + 2 + n + 2] != '$'
    ensures ParseSpec(b) != Incomplete
  {
    var q, text := f + 2 + n + 2, Sub(b, f + 2, n);
    LengthWhole(b, p, f, n, text, q);
    StepAndEnd(b, e, v, texts, p, text, q, texts + [text]);
  }

  lemma {:induction false} LengthWhole(b: string, p: nat, f: nat, n: int, text: string, q: nat)
    requires Sized(b, p, f, n) && q == f + 2 + n + 2 <= |b| && text == Sub(b, f + 2, n)
    ensures Whole(b, p, text, q)
  {
    LengthMeans(b, p, f, n);
  }

  lemma {:induction false} StepAndEnd(b: string, e: nat, v: int, texts: seq<string>, p: nat, text: string, q: nat,
                                      all: seq<string>)
    requires Reaches(b, e, v, texts, p) && Whole(b, p, text, q) && q < |b| && b[q] != '$' && all == texts + [text]
    ensures ParseSpec(b) != Incomplete
  {
    StepsMore(b, e + 2, texts, p, text, q, all);
    EndsBehind(b, e, v, all, q);
  }

  lemma {:induction false} EndsBehind(b: string, e: nat, v: int, texts: seq<string>, q: nat)
    requires Counted(b, e, v) && 0 < |texts| <= v && Steps(b, e + 2, texts, q) && q < |b| && b[q] != '$'
    ensures ParseSpec(b) != Incomplete
  {
    if |texts| < v { WrongParse(b, e, v, texts, q); } else { HoldsParse(b, texts, q); }
  }

  lemma {:induction false} CountLineEnds(b: string, all: string)
    requires all == b + Tail() && b != "" && b[0] == '*' && NoLineEnd(b, 0)
    ensures ParseSpec(all) == Error
  {
    var e := |b| + Filler;
    TailIs(b, all);
    LineEnds(b, all, 0);
    EndFound(all, 0, e);
    CountMeans(all, e);
    if StoI(all[1..e]).Number? { CountEnds(all, e, StoI(all[1..e]).value); }
  }

  lemma {:induction false} CountEnds(b: string, e: nat, v: int)
    requires Counted(b, e, v) && e + 2 < |b| && b[e + 2] != '$'
    ensures ParseSpec(b) == Error
  {
    if v <= 0 {
      FailsParse(b);
    } else {
      assert Reaches(b, e, v, [], e + 2);
      ReachedParse(b, e, v, [], e + 2);
    }
  }

  lemma {:induction false} PartialEnds(b: string, all: string, e: nat, v: int, texts: seq<string>, q: nat)
    requires all == b + Tail() && Reaches(all, e, v, texts, q) && Partial(b, q) && !Negative(b, q)
    ensures ParseSpec(all) != Incomplete
  {
    TailIs(b, all);
    if q == |b| {
      ReachedParse(all, e, v, texts, q);
    } else if TooLong(b, q) {
      TooLongEnds(b, all, e, v, texts, q);
    } else {
      LengthEnds(b, all, e, v, texts, q);
    }
  }

  lemma {:induction false} TooLongEnds(b: string, all: string, e: nat, v: int, texts: seq<string>, q: nat)
    requires all == b + Tail() && Reaches(all, e, v, texts, q) && TooLong(b, q)
    ensures ParseSpec(all) != Incomplete
  {
    var f: nat, n: int :| Sized(b, q, f, n) && f + 2 + n + 2 > |b|;
    SizedBound(b, q, f, n);
    SizedStays(b, Tail(), q, f, n);
    TailIs(b, all);
    OneMoreEnds(all, e, v, texts, q, f, n);
  }

  lemma {:induction false} SizedBound(b: string, p: nat, e: nat, n: int)
    requires Sized(b, p, e, n)
    ensures -0x8000_0000 <= n <= 0x7FFF_FFFF && e + 2 <= |b|
  {
    NumberBound(b[p + 1..e], n);
  }

  lemma {:induction false} LengthEnds(b: string, all: string, e: nat, v: int, texts: seq<string>, q: nat)
    requires all == b + Tail() && Reaches(all, e, v, texts, q) && q < |b| && b[q] == '$' && NoLineEnd(b, q)
    ensures ParseSpec(all) != Incomplete
  {
    var f := |b| + Filler;
    TailIs(b, all);
    LineEnds(b, all, q);
    EndFound(all, q, f);
    assert all[q] == '$';
    LengthRead(all, q);
    var length := StoI(all[q + 1..f]);
    if length.Number? {
      NumberBound(all[q + 1..f], length.value);
      OneMoreEnds(all, e, v, texts, q, f, length.value);
    } else {
      ReachedParse(all, e, v, texts, q);
    }
  }

  // Every wait can end, but one for a bulk string whose negative length leads
  // to before the buffer: that one never does.
  lemma {:induction false} WaitsEnd(b: string)
    requires ParseSpec(b) == Incomplete
    ensures (forall s :: ParseSpec(b + s) == Incomplete) <==> Stuck(b)
    ensures !Stuck(b) ==> ParseSpec(b + Tail()) != Incomplete
  {
    if Stuck(b) {
      forall s ensures ParseSpec(b + s) == Incomplete { StuckWaits(b, s); }
    } else {
      var all := b + Tail();
      ParseMeans(b);
      TailIs(b, all);
      if b == "" {
        FailsParse(all);
      } else if b[0] == '*' && NoLineEnd(b, 0) {
        CountLineEnds(b, all);
      } else {
        var e: nat, v: int, texts: seq<string>, q: nat :| Reaches(b, e, v, texts, q) && Partial(b, q);
        var more := ReachesStays(b, Tail(), e, v, texts, q);
        PartialEnds(b, all, e, v, more, q);
      }
    }
  }
}
