/**
 * What the bytes of a command buffer say (v1/RESP_parser.hpp), place by
 * place: line ends, numbers, bulk strings, and which buffers are right, wrong
 * or not complete.  The parser of Resp is proved against this.
 */
module RespBytes {
  // ---------- lines ----------

  ghost predicate EndsLine(b: string, j: int) {
    0 <= j && j + 2 <= |b| && b[j] == '\r' && b[j + 1] == '\n'
  }

  // the first line end from p on
  ghost predicate LineEnd(b: string, p: nat, e: nat) {
    p <= e && EndsLine(b, e) && forall j :: p <= j < e ==> !EndsLine(b, j)
  }

  ghost predicate NoLineEnd(b: string, p: nat) { forall j :: p <= j ==> !EndsLine(b, j) }

  // ---------- numbers ----------

  predicate Space(c: char) { c as int == 32 || 9 <= c as int <= 13 }

  predicate Figure(c: char) { '0' <= c <= '9' }

  function Ten(n: nat): nat { if n == 0 then 1 else 10 * Ten(n - 1) }

  // a decimal number, the most significant figure first
  function Decimal(s: string): nat
    requires forall i :: 0 <= i < |s| ==> Figure(s[i])
  {
    assert s != [] ==> Figure(s[0]);
    if s == [] then 0 else (s[0] as int - 48) * Ten(|s| - 1) + Decimal(s[1..])
  }

  // up to a spaces, then a sign or none, and from c to e all the figures
  ghost predicate ReadsAt(s: string, v: int, a: nat, c: nat, e: nat) {
    a <= c < e <= |s|
    && (forall i :: 0 <= i < a ==> Space(s[i]))
    && (c == a || (c == a + 1 && (s[a] == '+' || s[a] == '-')))
    && (forall i :: c <= i < e ==> Figure(s[i])) && (e < |s| ==> !Figure(s[e]))
    && (if c > a && s[a] == '-' then -v else v) == Decimal(s[c..e])
    && -0x8000_0000 <= v <= 0x7FFF_FFFF
  }

  // s begins with the 32-bit number v
  ghost predicate Reads(s: string, v: int) {
    exists a: nat, c: nat, e: nat :: ReadsAt(s, v, a, c, e)
  }

  ghost predicate Unreadable(s: string) { forall v: int :: !Reads(s, v) }

  // ---------- bulk strings ----------

  // at p stands the whole length line of a bulk string, with length n
  ghost predicate Sized(b: string, p: nat, e: nat, n: int) {
    p < |b| && b[p] == '$' && LineEnd(b, p, e) && Reads(b[p + 1..e], n)
  }

  // A bulk string from p to q.  One of negative length ends before its own
  // bytes; its text is all that follows.
  ghost predicate Whole(b: string, p: nat, text: string, q: nat) {
    exists e: nat, n: int :: WholeAt(b, p, text, q, e, n)
  }

  ghost predicate WholeAt(b: string, p: nat, text: string, q: nat, e: nat, n: int) {
    Sized(b, p, e, n) && q == e + 2 + n + 2 && q <= |b|
    && text == if n >= 0 then b[e + 2..e + 2 + n] else b[e + 2..]
  }

  // bulk strings with these texts lead from p to q
  ghost predicate Steps(b: string, p: nat, texts: seq<string>, q: nat)
    decreases |texts|
  {
    if texts == [] then p == q
    else exists m: nat :: Whole(b, p, texts[0], m) && Steps(b, m, texts[1..], q)
  }

  // no bulk string, or one whose length cannot be read
  ghost predicate Wrong(b: string, p: nat) {
    p < |b| && (b[p] != '$' || exists e: nat :: LineEnd(b, p, e) && Unreadable(b[p + 1..e]))
  }

  // a bulk string that is not complete
  ghost predicate Partial(b: string, p: nat) {
    p == |b| || (p < |b| && b[p] == '$' && NoLineEnd(b, p)) || TooLong(b, p) || Negative(b, p)
  }

  ghost predicate TooLong(b: string, p: nat) { exists e: nat, n: int :: Sized(b, p, e, n) && e + 2 + n + 2 > |b| }

  // its negative length leads to before the buffer: size_t wraps around, and
  // no buffer is that long
  ghost predicate Negative(b: string, p: nat) { exists e: nat, n: int :: Sized(b, p, e, n) && e + 2 + n + 2 < 0 }

  // ---------- whole buffers ----------

  // the count line is complete, with count v
  ghost predicate Counted(b: string, e: nat, v: int) {
    b != "" && b[0] == '*' && LineEnd(b, 0, e) && Reads(b[1..e], v)
  }

  // fewer bulk strings than the count lead to q
  ghost predicate Reaches(b: string, e: nat, v: int, texts: seq<string>, q: nat) {
    Counted(b, e, v) && |texts| < v && Steps(b, e + 2, texts, q)
  }

  // the buffer begins with an array of these texts, and it ends at q
  ghost predicate Holds(b: string, texts: seq<string>, q: nat) {
    texts != [] && exists e: nat :: Counted(b, e, |texts|) && Steps(b, e + 2, texts, q)
  }

  // the small letters of s are capital ones in t
  ghost predicate Uppered(s: string, t: string) {
    |t| == |s|
    && forall i :: 0 <= i < |s| ==> t[i] as int == if 97 <= s[i] as int <= 122 then s[i] as int - 32 else s[i] as int
  }

  // No array; or a count that cannot be read, or is 0 or less; or something
  // wrong behind fewer bulk strings than the count.
  ghost predicate Fails(b: string) {
    b != ""
    && (b[0] != '*'
        || (exists e: nat :: LineEnd(b, 0, e) && Unreadable(b[1..e]))
        || (exists e: nat, v: int :: Counted(b, e, v) && v <= 0)
        || (exists e: nat, v: int, texts: seq<string>, q: nat :: Reaches(b, e, v, texts, q) && Wrong(b, q)))
  }

  // Nothing; or no whole count line; or fewer bulk strings than the count,
  // and then one that is not complete.
  ghost predicate Waits(b: string) {
    b == "" || (b[0] == '*' && NoLineEnd(b, 0))
    || exists e: nat, v: int, texts: seq<string>, q: nat :: Reaches(b, e, v, texts, q) && Partial(b, q)
  }

  // what it waits for can never come
  ghost predicate Stuck(b: string) {
    exists e: nat, v: int, texts: seq<string>, q: nat :: Reaches(b, e, v, texts, q) && Negative(b, q)
  }

  // ---------- more bytes ----------

  lemma {:induction false} LineEndOnce(b: string, p: nat, e: nat, f: nat)
    requires LineEnd(b, p, e) && LineEnd(b, p, f)
    ensures e == f
  {
  }

  lemma {:induction false} LineEndStays(b: string, s: string, p: nat, e: nat)
    requires LineEnd(b, p, e)
    ensures LineEnd(b + s, p, e) && forall i :: 0 <= i <= e ==> (b + s)[i..e] == b[i..e]
  {
    forall j | p <= j < e ensures !EndsLine(b + s, j) { assert !EndsLine(b, j); }
    forall i | 0 <= i <= e ensures (b + s)[i..e] == b[i..e] { }
  }

  lemma {:induction false} SizedStays(b: string, s: string, p: nat, e: nat, n: int)
    requires Sized(b, p, e, n)
    ensures Sized(b + s, p, e, n)
  {
    LineEndStays(b, s, p, e);
    assert p < e;
    assert (b + s)[p + 1..e] == b[p + 1..e];
  }

  lemma {:induction false} CountedStays(b: string, s: string, e: nat, v: int)
    requires Counted(b, e, v)
    ensures Counted(b + s, e, v)
  {
    LineEndStays(b, s, 0, e);
    assert 0 < e;
    assert (b + s)[1..e] == b[1..e];
  }

  // a whole bulk string ends at the same place, whatever follows
  lemma {:induction false} WholeStays(b: string, s: string, p: nat, text: string, q: nat) returns (more: string)
    requires Whole(b, p, text, q)
    ensures Whole(b + s, p, more, q)
  {
    var e: nat, n: int :| WholeAt(b, p, text, q, e, n);
    SizedStays(b, s, p, e, n);
    var all, at := b + s, e + 2;
    more := if n >= 0 then all[at..at + n] else all[at..];
    assert WholeAt(all, p, more, q, e, n);
  }

  lemma {:induction false} StepsStay(b: string, s: string, p: nat, texts: seq<string>, q: nat)
    returns (more: seq<string>)
    requires Steps(b, p, texts, q)
    ensures |more| == |texts| && Steps(b + s, p, more, q)
    decreases |texts|
  {
    more := [];
    if texts != [] {
      var m: nat :| Whole(b, p, texts[0], m) && Steps(b, m, texts[1..], q);
      var first := WholeStays(b, s, p, texts[0], m);
      var rest := StepsStay(b, s, m, texts[1..], q);
      more := [first] + rest;
      assert more[0] == first && more[1..] == rest;
    }
  }

  lemma {:induction false} ReachesStays(b: string, s: string, e: nat, v: int, texts: seq<string>, q: nat)
    returns (more: seq<string>)
    requires Reaches(b, e, v, texts, q)
    ensures Reaches(b + s, e, v, more, q)
  {
    CountedStays(b, s, e, v);
    more := StepsStay(b, s, e + 2, texts, q);
  }

  lemma {:induction false} WrongStays(b: string, s: string, p: nat)
    requires Wrong(b, p)
    ensures Wrong(b + s, p)
  {
    if b[p] == '$' {
      var e: nat :| LineEnd(b, p, e) && Unreadable(b[p + 1..e]);
      LineEndStays(b, s, p, e);
      assert p < e;
      assert (b + s)[p + 1..e] == b[p + 1..e];
    }
  }

  // more bytes do not mend what is wrong
  lemma {:induction false} FailsStays(b: string, s: string)
    requires Fails(b)
    ensures Fails(b + s)
  {
    if b[0] == '*' {
      if e: nat :| LineEnd(b, 0, e) && Unreadable(b[1..e]) {
        LineEndStays(b, s, 0, e);
        assert 0 < e;
        assert (b + s)[1..e] == b[1..e];
      } else if e: nat, v: int :| Counted(b, e, v) && v <= 0 {
        CountedStays(b, s, e, v);
      } else {
        var e: nat, v: int, texts: seq<string>, q: nat :| Reaches(b, e, v, texts, q) && Wrong(b, q);
        var more := ReachesStays(b, s, e, v, texts, q);
        WrongStays(b, s, q);
      }
    }
  }

  // nor do they get a buffer on that is stuck
  lemma {:induction false} StuckStays(b: string, s: string)
    requires Stuck(b)
    ensures Stuck(b + s)
  {
    var e: nat, v: int, texts: seq<string>, q: nat :| Reaches(b, e, v, texts, q) && Negative(b, q);
    var more := ReachesStays(b, s, e, v, texts, q);
    var f: nat, n: int :| Sized(b, q, f, n) && f + 2 + n + 2 < 0;
    SizedStays(b, s, q, f, n);
  }
}
