/** The user library's tokenizer over a NUL-terminated buffer, in place, and the shell's use of it. */
module Tokenizer {
  import opened Common

  const NUL: char := '\0'

  // ---------- the tokens of a text ----------

  /** The first position from `p` on that is not a delimiter. */
  function SkipDelimiters(s: string, p: nat, set_: string): (q: nat)
    requires p <= |s|
    ensures p <= q <= |s| && (forall k :: p <= k < q ==> s[k] in set_) && (q < |s| ==> s[q] !in set_)
    decreases |s| - p
  {
    if p < |s| && s[p] in set_ then SkipDelimiters(s, p + 1, set_) else p
  }

  /** The first position from `p` on that is a delimiter. */
  function SkipToken(s: string, p: nat, set_: string): (q: nat)
    requires p <= |s|
    ensures p <= q <= |s| && (forall k :: p <= k < q ==> s[k] !in set_) && (q < |s| ==> s[q] in set_)
    decreases |s| - p
  {
    if p < |s| && s[p] !in set_ then SkipToken(s, p + 1, set_) else p
  }

  datatype Run = Run(start: nat, end: nat)

  /** The tokens from position `p` on, as the tokenizer finds them. */
  function Runs(s: string, p: nat, set_: string): seq<Run>
    requires p <= |s|
    decreases |s| - p
  {
    var a := SkipDelimiters(s, p, set_);
    if a == |s| then []
    else
      var b := SkipToken(s, a, set_);
      [Run(a, b)] + Runs(s, if b == |s| then b else b + 1, set_)
  }

  /** A maximal stretch of `s` without delimiters. */
  ghost predicate IsMaximalRun(s: string, r: Run, set_: string) {
    && r.start < r.end <= |s|
    && (forall k :: r.start <= k < r.end ==> s[k] !in set_)
    && (r.start == 0 || s[r.start - 1] in set_)
    && (r.end == |s| || s[r.end] in set_)
  }

  /** The text from `p` on starts a token or a delimiter. */
  ghost predicate IsBoundary(s: string, p: nat, set_: string) {
    p <= |s| && (p == 0 || p == |s| || s[p - 1] in set_)
  }

  /** One step of `Runs`. */
  lemma RunsStep(s: string, p: nat, set_: string) returns (a: nat, b: nat, q: nat)
    requires IsBoundary(s, p, set_) && SkipDelimiters(s, p, set_) < |s|
    ensures p <= a < b < q + 1 && b <= q <= |s| && (q < |s| ==> b < q) && a == SkipDelimiters(s, p, set_)
    ensures IsBoundary(s, q, set_) && IsMaximalRun(s, Run(a, b), set_) && a < |s|
    ensures Runs(s, p, set_) == [Run(a, b)] + Runs(s, q, set_)
    ensures forall r :: IsMaximalRun(s, r, set_) && p <= r.start < q ==> r == Run(a, b)
  {
    a := SkipDelimiters(s, p, set_);
    b := SkipToken(s, a, set_);
    q := if b == |s| then b else b + 1;
    hide Runs, SkipDelimiters, SkipToken, IsBoundary;
    forall r | IsMaximalRun(s, r, set_) && p <= r.start < q ensures r == Run(a, b) {
      OnlyRun(s, p, a, b, r, set_);
    }
  }

  lemma {:induction false} RunsAreRuns(s: string, p: nat, set_: string)
    requires IsBoundary(s, p, set_)
    ensures forall r :: r in Runs(s, p, set_) ==> IsMaximalRun(s, r, set_) && p <= r.start < |s|
    ensures InOrder(Runs(s, p, set_))
    decreases |s| - p
  {
    if SkipDelimiters(s, p, set_) < |s| {
      var a, b, q := RunsStep(s, p, set_);
      RunsAreRuns(s, q, set_);
      hide Runs, SkipDelimiters, IsBoundary, IsMaximalRun, InOrder;
      InOrderBefore(Run(a, b), Runs(s, q, set_));
    }
  }

  ghost predicate InOrder(rs: seq<Run>) {
    forall i, j :: 0 <= i < j < |rs| ==> rs[i].end < rs[j].start
  }

  lemma InOrderBefore(r: Run, rs: seq<Run>)
    requires InOrder(rs) && forall x :: x in rs ==> r.end < x.start
    ensures InOrder([r] + rs)
  {
  }

  lemma {:induction false} RunIsFound(s: string, p: nat, set_: string, r: Run)
    requires IsBoundary(s, p, set_) && IsMaximalRun(s, r, set_) && p <= r.start
    ensures r in Runs(s, p, set_)
    decreases |s| - p
  {
    assert s[r.start] !in set_;
    if SkipDelimiters(s, p, set_) < |s| {
      var a, b, q := RunsStep(s, p, set_);
      if r.start >= q {
        RunIsFound(s, q, set_, r);
      }
    }
  }

  /** The tokens of a text are its maximal runs without delimiters, in order, each once. */
  lemma RunsAreMaximal(s: string, set_: string)
    ensures forall r :: r in Runs(s, 0, set_) <==> IsMaximalRun(s, r, set_)
    ensures InOrder(Runs(s, 0, set_))
  {
    hide InOrder, IsMaximalRun;
    RunsAreRuns(s, 0, set_);
    forall r | IsMaximalRun(s, r, set_) ensures r in Runs(s, 0, set_) {
      RunIsFound(s, 0, set_, r);
    }
  }

  lemma OnlyRun(s: string, p: nat, a: nat, b: nat, r: Run, set_: string)
    requires p <= a < b <= |s| && (forall k :: p <= k < a ==> s[k] in set_) && (forall k :: a <= k < b ==> s[k] !in set_)
    requires b == |s| || s[b] in set_
    requires IsMaximalRun(s, r, set_) && p <= r.start <= b && r.start < |s|
    ensures r == Run(a, b)
  {
    assert s[r.start] !in set_;
    var before := if r.start > 0 then r.start - 1 else 0;
    var behind := if r.end < |s| then r.end else 0;
    assert a <= before < b ==> s[before] !in set_;
    assert a <= behind < b ==> s[behind] !in set_;
  }

  // ---------- the library ----------

  /** The text at `p` is the part of `s` from `p` on, and ends at the NUL at |s|. */
  ghost predicate HoldsFrom(text: string, s: string, p: nat) {
    && p <= |s| < |text| && NUL !in s
    && text[|s|] == NUL && forall k :: p <= k < |s| ==> text[k] == s[k]
  }

  /** StringGetInitialSpan */
  method InitialSpan(buffer: array<char>, p: nat, set_: string, ghost s: string) returns (count: nat)
    requires HoldsFrom(buffer[..], s, p)
    ensures p + count == SkipDelimiters(s, p, set_)
  {
    count := 0;
    while buffer[p + count] != NUL && buffer[p + count] in set_
      invariant p + count <= |s| && SkipDelimiters(s, p, set_) == SkipDelimiters(s, p + count, set_)
      decreases |s| - count
    {
      count := count + 1;
    }
  }

  /** StringFindFirstCharacterFromSet */
  method FindFirstFromSet(buffer: array<char>, p: nat, set_: string, ghost s: string) returns (at: Option<nat>)
    requires HoldsFrom(buffer[..], s, p)
    ensures at == if SkipToken(s, p, set_) == |s| then None else Some(SkipToken(s, p, set_))
  {
    var q := p;
    while buffer[q] != NUL
      invariant p <= q <= |s| && SkipToken(s, p, set_) == SkipToken(s, q, set_)
      decreases |s| - q
    {
      if buffer[q] in set_ {
        return Some(q);
      }
      q := q + 1;
    }
    return None;
  }

  /** StringGetLength */
  method Length(buffer: array<char>, p: nat, ghost s: string) returns (n: nat)
    requires HoldsFrom(buffer[..], s, p)
    ensures p + n == |s|
  {
    n := 0;
    while buffer[p + n] != NUL
      invariant p + n <= |s|
      decreases |s| - n
    {
      n := n + 1;
    }
  }

  class Tokens {
    /** `olds`: where the next token is looked for. */
    var position: nat

    constructor ()
    {
      position := 0;
    }

    /** StringTokenize: the first call gives the string, the later ones None. `s` is the text before
        any call; what is left of it is untouched. */
    method Tokenize(buffer: array<char>, start: Option<nat>, set_: string, ghost s: string) returns (token: Option<nat>)
      requires HoldsFrom(buffer[..], s, if start.Some? then start.value else position)
      modifies this, buffer
      ensures HoldsFrom(buffer[..], s, position)
      ensures var p := if start.Some? then start.value else old(position);
        var a := SkipDelimiters(s, p, set_);
        && p <= position
        && (a == |s| ==> token == None && position == |s| && buffer[..] == old(buffer[..]))
        && (a < |s| ==>
          var b := SkipToken(s, a, set_);
          && token == Some(a) && position == (if b == |s| then b else b + 1)
          && buffer[..] == if b == |s| then old(buffer[..]) else old(buffer[..])[b := NUL])
    {
      var p := if start.Some? then start.value else position;
      var span := InitialSpan(buffer, p, set_, s);
      p := p + span;
      if buffer[p] == NUL {
        position := p;
        return None;
      }
      token := Some(p);
      var at := FindFirstFromSet(buffer, p, set_, s);
      if at.None? {
        var n := Length(buffer, p, s);
        position := p + n;
      } else {
        buffer[at.value] := NUL;
        position := at.value + 1;
      }
    }

    // ---------- the shell ----------

    /** tokenize: the tokens of the line, up to `limit`, each a C string where it stood. */
    method TokenizeLine(buffer: array<char>, tokens: array<nat>, limit: nat, ghost s: string) returns (count: nat)
      requires HoldsFrom(buffer[..], s, 0) && limit <= tokens.Length
      modifies this, buffer, tokens
      ensures HoldsFrom(buffer[..], s, position)
      ensures var runs := Runs(s, 0, DELIMITERS);
        && count == (if |runs| < limit then |runs| else limit)
        && forall i :: 0 <= i < count ==> tokens[i] == runs[i].start && IsToken(buffer[..], s, runs[i])
    {
      hide HoldsFrom, Runs, Unread, Cut, SkipDelimiters, SkipToken, IsToken;
      ghost var runs := Runs(s, 0, DELIMITERS);
      var token := Tokenize(buffer, Some(0), DELIMITERS, s);
      Found(old(buffer[..]), buffer[..], s, runs, 0, 0, position, token, DELIMITERS);
      count := 0;
      while token.Some? && count < limit
        invariant count <= limit && HoldsFrom(buffer[..], s, position)
        invariant if token.None? then count == |runs| else Unread(s, runs, count, position, token.value, DELIMITERS)
        invariant Cut(buffer[..], s, runs, count + if token.None? then 0 else 1, position)
        invariant count <= |runs| && forall i :: 0 <= i < count ==> tokens[i] == runs[i].start
        decreases limit - count
      {
        tokens[count] := token.value;
        UnreadToken(s, runs, count, position, token.value, DELIMITERS);
        ghost var was, p := buffer[..], position;
        token := Tokenize(buffer, None, DELIMITERS, s);
        count := count + 1;
        Found(was, buffer[..], s, runs, count, p, position, token, DELIMITERS);
      }
      CutTokens(buffer[..], s, runs, count + (if token.None? then 0 else 1), position);
      assert token.Some? ==> count < |runs| by {
        if token.Some? {
          UnreadToken(s, runs, count, position, token.value, DELIMITERS);
        }
      }
    }
  }

  const DELIMITERS: string := " \t\r\n"

  lemma TwoRuns(s: string, n: nat, set_: string)
    requires 0 < n < |s| - 1 && s[n] in set_ && forall k :: 0 <= k < |s| && k != n ==> s[k] !in set_
    ensures Runs(s, 0, set_) == [Run(0, n), Run(n + 1, |s|)]
  {
    assert SkipDelimiters(s, 0, set_) == 0 && SkipToken(s, 0, set_) == n;
    assert SkipDelimiters(s, n + 1, set_) == n + 1 && SkipToken(s, n + 1, set_) == |s|;
    hide SkipDelimiters, SkipToken;
    assert Runs(s, |s|, set_) == [];
    assert Runs(s, n + 1, set_) == [Run(n + 1, |s|)];
  }

  ghost predicate IsBlank(c: char) {
    c == ' ' || c == '\t' || c == '\r' || c == '\n'
  }

  lemma Blanks(c: char)
    ensures c in DELIMITERS <==> IsBlank(c)
  {
    assert DELIMITERS[0] == ' ' && DELIMITERS[1] == '\t' && DELIMITERS[2] == '\r' && DELIMITERS[3] == '\n';
  }

  /** Two words with a blank, a tab, a carriage return or a line feed between them are two tokens. */
  lemma TwoWords(s: string, n: nat)
    requires 0 < n < |s| - 1 && forall k :: 0 <= k < |s| ==> (IsBlank(s[k]) <==> k == n)
    ensures Runs(s, 0, DELIMITERS) == [Run(0, n), Run(n + 1, |s|)]
  {
    hide Runs, IsBlank;
    forall k | 0 <= k < |s| ensures s[k] in DELIMITERS <==> k == n {
      Blanks(s[k]);
    }
    TwoRuns(s, n, DELIMITERS);
  }

  /** The C string at the run's start is the run's text. */
  ghost predicate IsToken(text: string, s: string, r: Run) {
    && r.start < r.end <= |s| < |text|
    && text[r.start..r.end] == s[r.start..r.end] && NUL !in s[r.start..r.end] && text[r.end] == NUL
  }

  /** The first `n` runs have been cut out of the text before `position`. */
  ghost predicate Cut(text: string, s: string, runs: seq<Run>, n: nat, position: nat) {
    n <= |runs| && forall i :: 0 <= i < n ==> runs[i].end <= position && IsToken(text, s, runs[i])
  }

  /** Run `i`, at `token`, is the last one found. */
  ghost predicate Unread(s: string, runs: seq<Run>, i: nat, position: nat, token: nat, set_: string) {
    && i < |runs| && token == runs[i].start && position <= |s|
    && runs[i + 1..] == Runs(s, position, set_)
  }

  lemma UnreadToken(s: string, runs: seq<Run>, i: nat, position: nat, token: nat, set_: string)
    requires Unread(s, runs, i, position, token, set_)
    ensures i < |runs| && token == runs[i].start && position <= |s| && runs[i + 1..] == Runs(s, position, set_)
  {
  }

  lemma CutTokens(text: string, s: string, runs: seq<Run>, n: nat, position: nat)
    requires Cut(text, s, runs, n, position)
    ensures n <= |runs| && forall i :: 0 <= i < n ==> IsToken(text, s, runs[i])
  {
  }

  /** One more call of Tokenize, from `p`, after `n` runs: run `n` is cut, or there is none. */
  lemma Found(t: string, t': string, s: string, runs: seq<Run>, n: nat, p: nat, position: nat, token: Option<nat>, set_: string)
    requires Cut(t, s, runs, n, p) && HoldsFrom(t, s, p) && runs[n..] == Runs(s, p, set_)
    requires var a := SkipDelimiters(s, p, set_);
      && p <= position
      && (a == |s| ==> token == None && position == |s| && t' == t)
      && (a < |s| ==>
        var b := SkipToken(s, a, set_);
        && token == Some(a) && position == (if b == |s| then b else b + 1)
        && t' == if b == |s| then t else t[b := NUL])
    ensures if token.None? then n == |runs| else Unread(s, runs, n, position, token.value, set_)
    ensures Cut(t', s, runs, n + if token.None? then 0 else 1, position)
  {
    if token.Some? {
      var a := SkipDelimiters(s, p, set_);
      var b := SkipToken(s, a, set_);
      assert runs[n] == runs[n..][0] == Run(a, b);
      assert runs[n + 1..] == runs[n..][1..];
      assert t'[a..b] == s[a..b];
      forall i | 0 <= i < n ensures IsToken(t', s, runs[i]) {
        assert t'[runs[i].start..runs[i].end] == t[runs[i].start..runs[i].end];
      }
    }
  }
}
