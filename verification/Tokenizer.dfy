/** The tokenizer of the shell: a line is cut at white space; quotes and
    backslashes protect characters. */
module Tokenizer {
  import opened CType
  import opened Options

  const N_MAX: nat := 4096

  datatype Mode = Normal | SQuote | DQuote

  /** The word being built and the words already pushed. */
  datatype State = State(mode: Mode, word: string, tokens: seq<string>) {
    function Append(c: char): State {
      this.(word := word + [c])
    }

    /** An empty word is not pushed. */
    function Push(): State {
      if word == [] then this else this.(word := [], tokens := tokens + [word])
    }
  }

  /** abort() ends the program. */
  datatype Outcome = Aborted | Done(tokens: seq<string>)

  // ----- What the loop does, as functions -----

  /** One turn of the loop on what is left of the line. */
  function Turn(s: State, line: string): State
    requires line != []
  {
    var c := line[0];
    if c == '\\' then (if |line| > 1 then s.Append(line[1]) else s)
    else match s.mode
      case Normal =>
        if c == '\'' then s.(mode := SQuote)
        else if c == '"' then s.(mode := DQuote)
        else if Space(c) then s.Push()
        else s.Append(c)
      case SQuote => if c == '\'' then s.(mode := Normal) else s.Append(c)
      case DQuote => if c == '"' then s.(mode := Normal) else s.Append(c)
  }

  /** How many characters the turn consumes. */
  function Used(line: string): (u: nat)
    requires line != []
    ensures 1 <= u <= |line|
  {
    if line[0] == '\\' && |line| > 1 then 2 else 1
  }

  /** The whole loop, with its check of the buffer after every turn. */
  function Tokenized(s: State, line: string): Outcome
    decreases |line|
  {
    if line == [] then Done(s.Push().tokens)
    else
      var t := Turn(s, line);
      if |t.word| + 1 >= N_MAX then Aborted else Tokenized(t, line[Used(line)..])
  }

  const START := State(Normal, [], [])

  /** tokenize; a NULL line is answered by NULL. */
  method Tokenize(line: Option<string>) returns (r: Option<Outcome>)
    ensures r == if line.None? then None else Some(Tokenized(START, line.value))
  {
    if line.None? {
      return None;
    }
    var outcome := TokenizeLine(line.value);
    r := Some(outcome);
  }

  lemma TokenizedEnd(s: State)
    ensures Tokenized(s, []) == Done(s.Push().tokens)
  {}

  lemma TokenizedTurn(s: State, line: string)
    requires line != []
    ensures var t := Turn(s, line);
      Tokenized(s, line) == if |t.word| + 1 >= N_MAX then Aborted else Tokenized(t, line[Used(line)..])
  {}

  /** What every mode does with a backslash: the next character, if there is one,
      goes into the buffer. */
  method Protected(line: string, i: nat, token: array<char>, n: nat) returns (j: nat, m: nat)
    requires i < |line| && line[i] == '\\' && n < token.Length
    modifies token
    ensures j == i + Used(line[i..]) - 1 && n <= m <= n + 1
    ensures token[..m] == old(token[..n]) + if i + 1 < |line| then [line[i + 1]] else []
  {
    j, m := i, n;
    if i + 1 < |line| {
      j := i + 1;
      token[n] := line[j];
      m := n + 1;
      assert token[..m] == token[..n] + [token[n]];
    }
  }

  method Store(token: array<char>, n: nat, c: char) returns (m: nat)
    requires n < token.Length
    modifies token
    ensures m == n + 1 && token[..m] == old(token[..n]) + [c]
  {
    token[n] := c;
    m := n + 1;
    assert token[..m] == token[..n] + [token[n]];
  }

  /** The body of the loop, up to the check of the buffer. */
  method TakeTurn(line: string, i: nat, mode: Mode, token: array<char>, n: nat, tokens: seq<string>)
    returns (j: nat, mode': Mode, m: nat, tokens': seq<string>)
    requires i < |line| && n + 1 < token.Length
    modifies token
    ensures j == i + Used(line[i..]) && m <= n + 1
    ensures State(mode', token[..m], tokens') == Turn(old(State(mode, token[..n], tokens)), line[i..])
  {
    j, mode', m, tokens' := i, mode, n, tokens;
    var c := line[i];
    if mode == Normal {
      if c == '\'' {
        mode' := SQuote;
      } else if c == '"' {
        mode' := DQuote;
      } else if c == '\\' {
        j, m := Protected(line, i, token, n);
      } else if Space(c) {
        if n > 0 {
          token[n] := '\0';
          tokens' := tokens + [token[..n]];
          m := 0;
        }
      } else {
        m := Store(token, n, c);
      }
    } else if mode == SQuote {
      if c == '\'' {
        mode' := Normal;
      } else if c == '\\' {
        j, m := Protected(line, i, token, n);
      } else {
        m := Store(token, n, c);
      }
    } else {
      if c == '"' {
        mode' := Normal;
      } else if c == '\\' {
        j, m := Protected(line, i, token, n);
      } else {
        m := Store(token, n, c);
      }
    }
    j := j + 1;
  }

  /** The loop. The buffer holds a word and its terminating null character. */
  method TokenizeLine(line: string) returns (r: Outcome)
    ensures r == Tokenized(START, line)
  {
    hide Tokenized, Turn;
    var token := new char[N_MAX];
    var n := 0;
    var tokens: seq<string> := [];
    var mode := Normal;
    var i := 0;
    assert token[..0] == [] && line[0..] == line;
    while i < |line|
      invariant 0 <= i <= |line| && 0 <= n && n + 1 < N_MAX
      invariant Tokenized(State(mode, token[..n], tokens), line[i..]) == Tokenized(START, line)
      decreases |line| - i
    {
      ghost var s, rest := State(mode, token[..n], tokens), line[i..];
      TokenizedTurn(s, rest);
      i, mode, n, tokens := TakeTurn(line, i, mode, token, n, tokens);
      assert line[i..] == rest[Used(rest)..];
      if n + 1 >= N_MAX {
        return Aborted;
      }
    }
    TokenizedEnd(State(mode, token[..n], tokens));
    assert line[i..] == [];
    if n > 0 {
      token[n] := '\0';
      tokens := tokens + [token[..n]];
    }
    r := Done(tokens);
  }

  // ----- The same without a buffer -----

  /** The state after the whole line. */
  function After(s: State, line: string): State
    decreases |line|
  {
    if line == [] then s else After(Turn(s, line), line[Used(line)..])
  }

  /** The words of a line, however long. */
  function WordsOf(line: string): seq<string> {
    After(START, line).Push().tokens
  }

  predicate TooLong(w: string) {
    |w| + 1 >= N_MAX
  }

  ghost predicate AnyTooLong(ts: seq<string>) {
    exists i :: 0 <= i < |ts| && TooLong(ts[i])
  }

  lemma AnyTooLongAppend(ts: seq<string>, w: string)
    ensures AnyTooLong(ts + [w]) <==> AnyTooLong(ts) || TooLong(w)
  {
    assert (ts + [w])[|ts|] == w;
    assert forall i :: 0 <= i < |ts| ==> (ts + [w])[i] == ts[i];
  }

  lemma PushTooLong(s: State)
    ensures AnyTooLong(s.Push().tokens) <==> AnyTooLong(s.tokens) || TooLong(s.word)
  {
    AnyTooLongAppend(s.tokens, s.word);
  }

  /** The loop goes on until a word does not fit, and otherwise finds the words
      of the line. */
  lemma {:induction false} RunExactly(s: State, line: string)
    requires !TooLong(s.word) && !AnyTooLong(s.tokens)
    ensures var ts := After(s, line).Push().tokens;
      Tokenized(s, line) == if AnyTooLong(ts) then Aborted else Done(ts)
    decreases |line|
  {
    hide AnyTooLong;
    PushTooLong(s);
    if line != [] {
      var t, rest := Turn(s, line), line[Used(line)..];
      if TooLong(t.word) {
        StaysTooLong(t, rest);
      } else {
        RunExactly(t, rest);
      }
    }
  }

  lemma {:induction false} StaysTooLong(s: State, line: string)
    requires TooLong(s.word) || AnyTooLong(s.tokens)
    ensures AnyTooLong(After(s, line).Push().tokens)
    decreases |line|
  {
    hide AnyTooLong;
    PushTooLong(s);
    if line != [] {
      StaysTooLong(Turn(s, line), line[Used(line)..]);
    }
  }

  /** tokenize aborts exactly when some word of the line has 4095 characters or
      more; otherwise it returns the words of the line. */
  lemma TokenizeExactly(line: string)
    ensures Tokenized(START, line) == Aborted <==> exists i :: 0 <= i < |WordsOf(line)| && |WordsOf(line)[i]| >= 4095
    ensures Tokenized(START, line).Done? ==> Tokenized(START, line).tokens == WordsOf(line)
  {
    RunExactly(START, line);
    var ts := WordsOf(line);
    assert AnyTooLong(ts) <==> exists i :: 0 <= i < |ts| && |ts[i]| >= 4095 by {
      if i :| 0 <= i < |ts| && |ts[i]| >= 4095 {
        assert TooLong(ts[i]);
      }
    }
  }

  // ----- Lines put together -----

  /** The line ends in a backslash that protects nothing. */
  predicate Dangling(line: string)
    decreases |line|
  {
    line != [] && (line == "\\" || Dangling(line[Used(line)..]))
  }

  lemma {:induction false} AfterConcat(s: State, a: string, b: string)
    requires !Dangling(a)
    ensures After(s, a + b) == After(After(s, a), b)
    ensures Dangling(a + b) == Dangling(b)
    decreases |a|
  {
    if a == [] {
      assert a + b == b;
    } else {
      assert |a| == 1 ==> a == [a[0]];
      var u := Used(a);
      assert Used(a + b) == u && Turn(s, a + b) == Turn(s, a);
      assert (a + b)[u..] == a[u..] + b;
      assert |a| == 1 ==> a[u..] == [];
      AfterConcat(Turn(s, a), a[u..], b);
    }
  }

  /** Words pushed earlier have no influence on what follows. */
  lemma {:induction false} TokensBefore(s: State, ts: seq<string>, line: string)
    ensures var r := After(s, line); After(s.(tokens := ts + s.tokens), line) == r.(tokens := ts + r.tokens)
    decreases |line|
  {
    if line != [] {
      var t := Turn(s, line);
      assert ts + s.tokens + [s.word] == ts + (s.tokens + [s.word]);
      assert Turn(s.(tokens := ts + s.tokens), line) == t.(tokens := ts + t.tokens);
      TokensBefore(t, ts, line[Used(line)..]);
    }
  }

  /** The words of two lines with a blank between them are those of the one
      followed by those of the other, provided that the first line closes its
      quotes and protects nothing beyond its end. */
  lemma WordsConcat(a: string, sp: char, b: string)
    requires Space(sp) && !Dangling(a) && After(START, a).mode == Normal
    ensures WordsOf(a + [sp] + b) == WordsOf(a) + WordsOf(b)
  {
    hide After, Dangling;
    var s := After(START, a);
    assert a + [sp] + b == a + ([sp] + b);
    AfterConcat(START, a, [sp] + b);
    BlankPushes(s, sp, b);
    assert s.Push() == START.(tokens := s.Push().tokens + START.tokens);
    TokensBefore(START, s.Push().tokens, b);
    var r := After(START, b);
    assert s.Push().tokens + (r.tokens + [r.word]) == s.Push().tokens + r.tokens + [r.word];
  }

  lemma BlankPushes(s: State, sp: char, b: string)
    requires Space(sp) && s.mode == Normal
    ensures After(s, [sp] + b) == After(s.Push(), b)
  {
    assert ([sp] + b)[1..] == b;
  }

  /** tokenize on two lines with a blank between them. */
  lemma TokenizeConcat(a: string, sp: char, b: string)
    requires Space(sp) && !Dangling(a) && After(START, a).mode == Normal
    ensures Tokenized(START, a + [sp] + b) ==
      match (Tokenized(START, a), Tokenized(START, b)) {
        case (Done(ts), Done(us)) => Done(ts + us)
        case _ => Aborted
      }
  {
    hide Tokenized, After, Dangling;
    WordsConcat(a, sp, b);
    RunExactly(START, a);
    RunExactly(START, b);
    RunExactly(START, a + [sp] + b);
    hide WordsOf;
    LongInEither(WordsOf(a), WordsOf(b));
  }

  lemma LongInEither(ts: seq<string>, us: seq<string>)
    ensures AnyTooLong(ts + us) <==> AnyTooLong(ts) || AnyTooLong(us)
  {
    assert forall i :: 0 <= i < |ts| ==> (ts + us)[i] == ts[i];
    forall i | 0 <= i < |us| ensures (ts + us)[|ts| + i] == us[i] {}
    if i :| 0 <= i < |ts + us| && TooLong((ts + us)[i]) {
      assert i >= |ts| ==> us[i - |ts|] == (ts + us)[i];
    }
  }

  /** A backslash at the very end of a line is ignored. */
  lemma LastBackslash(line: string)
    requires !Dangling(line)
    ensures WordsOf(line + "\\") == WordsOf(line)
    ensures Tokenized(START, line + "\\") == Tokenized(START, line)
  {
    AfterConcat(START, line, "\\");
    assert After(After(START, line), "\\") == After(START, line);
    RunExactly(START, line);
    RunExactly(START, line + "\\");
  }

  lemma ThreeTurns(c: char)
    requires c != '\\'
    ensures After(START, ['a', c, 'b']) == Turn(Turn(State(Normal, ['a'], []), [c, 'b']), ['b'])
  {
    var line := ['a', c, 'b'];
    assert line[1..] == [c, 'b'] && [c, 'b'][1..] == ['b'] && ['b'][1..] == [];
    var s := Turn(START, line);
    assert s == State(Normal, ['a'], []);
    var t := Turn(s, [c, 'b']);
    hide Turn;
    assert After(START, line) == After(s, [c, 'b']) == After(t, ['b']) == Turn(t, ['b']);
  }

  lemma BetweenBackslash()
    ensures WordsOf(['a', '\\', 'b']) == [['a', 'b']]
  {
    var line := ['a', '\\', 'b'];
    assert line[1..] == ['\\', 'b'] && ['\\', 'b'][2..] == [];
    var s := Turn(START, line);
    assert s == State(Normal, ['a'], []);
    assert Turn(s, ['\\', 'b']) == State(Normal, ['a', 'b'], []);
  }

  predicate Blank(c: char) {
    c == ' ' || c == '\t' || c == '\n' || c == 11 as char || c == 12 as char || c == '\r'
  }

  /** What one character between two letters does: exactly the six blanks of the
      C locale part them, quotes and a backslash leave them together, and any
      other character joins them. */
  lemma Between(c: char)
    ensures WordsOf(['a', c, 'b']) ==
      if Blank(c) then [['a'], ['b']]
      else if c == '\\' || c == '\'' || c == '"' then [['a', 'b']]
      else [['a', c, 'b']]
  {
    if c == '\\' {
      BetweenBackslash();
    } else {
      ThreeTurns(c);
      hide After;
      var s := State(Normal, ['a'], []);
      var t := Turn(s, [c, 'b']);
      if c == '\'' || c == '"' {
        var r := Turn(t, ['b']);
        assert t.word == ['a'] && t.tokens == [] && r == t.Append('b');
        assert r.word == ['a', 'b'] && r.Push().tokens == [['a', 'b']];
      } else if Blank(c) {
        assert t == State(Normal, [], [['a']]);
        assert Turn(t, ['b']) == State(Normal, ['b'], [['a']]);
      } else {
        assert t == s.Append(c);
        assert Turn(t, ['b']) == State(Normal, ['a', c, 'b'], []);
      }
    }
  }

  // ----- Ways of writing a word -----

  /** e, met outside quotes, adds w to the word being built and nothing else. */
  ghost predicate Spells(e: string, w: string) {
    && !Dangling(e)
    && forall v: string, ts: seq<string> :: After(State(Normal, v, ts), e) == State(Normal, v + w, ts)
  }

  /** A backslash before every character. */
  function Escape(w: string): string {
    if w == [] then [] else ['\\', w[0]] + Escape(w[1..])
  }

  /** Between quotes, single or double, a backslash before that quote and before
      backslashes only. */
  function Quote(q: char, w: string): string {
    [q] + Inside(q, w) + [q]
  }

  function Inside(q: char, w: string): string {
    if w == [] then []
    else (if w[0] == q || w[0] == '\\' then ['\\', w[0]] else [w[0]]) + Inside(q, w[1..])
  }

  lemma EscapedTurn(w: string, s: State)
    requires w != []
    ensures var e := Escape(w);
      e != [] && e != "\\" && Turn(s, e) == s.Append(w[0]) && Used(e) == 2 && e[2..] == Escape(w[1..])
  {}

  lemma {:induction false} EscapeAfter(w: string, s: State)
    ensures After(s, Escape(w)) == s.(word := s.word + w) && !Dangling(Escape(w))
    decreases |w|
  {
    if w == [] {
      assert s.word + w == s.word;
    } else {
      EscapeAfter(w[1..], s.Append(w[0]));
      EscapedTurn(w, s);
      assert s.word + w == s.word + [w[0]] + w[1..];
    }
  }

  lemma EscapeSpells(w: string)
    ensures Spells(Escape(w), w)
  {
    forall v, ts ensures After(State(Normal, v, ts), Escape(w)) == State(Normal, v + w, ts) {
      EscapeAfter(w, State(Normal, v, ts));
    }
    EscapeAfter(w, START);
  }

  function ModeOf(q: char): Mode {
    if q == '\'' then SQuote else DQuote
  }

  lemma {:induction false} InsideAfter(q: char, w: string, s: State)
    requires (q == '\'' || q == '"') && s.mode == ModeOf(q)
    ensures After(s, Inside(q, w) + [q]) == s.(word := s.word + w, mode := Normal) && !Dangling(Inside(q, w) + [q])
    decreases |w|
  {
    if w == [] {
      assert Inside(q, w) + [q] == [q] && s.word + w == s.word;
      assert [q][1..] == [];
    } else {
      InsideAfter(q, w[1..], s.Append(w[0]));
      InsideTurn(q, w, s);
      assert s.word + w == s.word + [w[0]] + w[1..];
    }
  }

  lemma InsideTurn(q: char, w: string, s: State)
    requires (q == '\'' || q == '"') && s.mode == ModeOf(q) && w != []
    ensures var e := Inside(q, w) + [q];
      e != [] && e != "\\" && Turn(s, e) == s.Append(w[0]) && e[Used(e)..] == Inside(q, w[1..]) + [q]
  {
    var c, rest := w[0], Inside(q, w[1..]) + [q];
    var first := if c == q || c == '\\' then ['\\', c] else [c];
    assert Inside(q, w) + [q] == first + rest;
    hide Inside;
    assert (first + rest)[|first|..] == rest && (first + rest)[0] == first[0];
    assert |first| == 2 ==> (first + rest)[1] == c;
    assert |(first + rest)| > 1;
  }

  lemma QuoteSpells(q: char, w: string)
    requires q == '\'' || q == '"'
    ensures Spells(Quote(q, w), w)
  {
    hide Inside;
    var e := Quote(q, w);
    assert e[1..] == Inside(q, w) + [q];
    forall v, ts ensures After(State(Normal, v, ts), e) == State(Normal, v + w, ts) {
      InsideAfter(q, w, State(ModeOf(q), v, ts));
      assert Turn(State(Normal, v, ts), e) == State(ModeOf(q), v, ts);
    }
    InsideAfter(q, w, State(ModeOf(q), [], []));
    assert e[0] == q;
  }

  /** Characters that stand for themselves outside quotes. */
  predicate Plain(w: string) {
    forall i :: 0 <= i < |w| ==> w[i] != '\'' && w[i] != '"' && w[i] != '\\' && !Space(w[i])
  }

  lemma {:induction false} PlainAfter(w: string, s: State)
    requires Plain(w) && s.mode == Normal
    ensures After(s, w) == s.(word := s.word + w) && !Dangling(w)
    decreases |w|
  {
    if w == [] {
      assert s.word + w == s.word;
    } else {
      PlainAfter(w[1..], s.Append(w[0]));
      assert s.word + w == s.word + [w[0]] + w[1..];
      assert w[0] != '\\';
    }
  }

  lemma PlainSpells(w: string)
    requires Plain(w)
    ensures Spells(w, w)
  {
    forall v, ts ensures After(State(Normal, v, ts), w) == State(Normal, v + w, ts) {
      PlainAfter(w, State(Normal, v, ts));
    }
    PlainAfter(w, START);
  }

  /** Spellings written one after another spell one word. */
  lemma SpellsConcat(e: string, f: string, w: string, x: string)
    requires Spells(e, w) && Spells(f, x)
    ensures Spells(e + f, w + x)
  {
    hide After, Dangling;
    AfterConcat(START, e, f);
    forall v: string, ts ensures After(State(Normal, v, ts), e + f) == State(Normal, v + (w + x), ts) {
      AfterConcat(State(Normal, v, ts), e, f);
      assert v + w + x == v + (w + x);
    }
  }

  // ----- Words written in parts, each in its own way -----

  datatype Part = Bare(w: string) | Escaped(w: string) | Quoted(q: char, w: string) {
    predicate Valid() {
      && (Bare? ==> Plain(w))
      && (Quoted? ==> q == '\'' || q == '"')
    }

    function Written(): string {
      match this
      case Bare(w) => w
      case Escaped(w) => Escape(w)
      case Quoted(q, w) => Quote(q, w)
    }
  }

  function Written(ps: seq<Part>): string {
    if ps == [] then [] else ps[0].Written() + Written(ps[1..])
  }

  function Meant(ps: seq<Part>): string {
    if ps == [] then [] else ps[0].w + Meant(ps[1..])
  }

  lemma PartSpells(p: Part)
    requires p.Valid()
    ensures Spells(p.Written(), p.w)
  {
    hide Spells;
    match p {
      case Bare(w) => PlainSpells(w);
      case Escaped(w) => EscapeSpells(w);
      case Quoted(q, w) => QuoteSpells(q, w);
    }
  }

  lemma {:induction false} PartsSpell(ps: seq<Part>)
    requires forall i :: 0 <= i < |ps| ==> ps[i].Valid()
    ensures Spells(Written(ps), Meant(ps))
  {
    if ps == [] {
      PlainSpells([]);
    } else {
      hide Spells;
      PartSpells(ps[0]);
      PartsSpell(ps[1..]);
      SpellsConcat(ps[0].Written(), Written(ps[1..]), ps[0].w, Meant(ps[1..]));
    }
  }

  function Join(es: seq<string>): string {
    if es == [] then [] else if |es| == 1 then es[0] else es[0] + " " + Join(es[1..])
  }

  /** A line of words, each written in any way that spells it, is cut into
      exactly these words. */
  lemma {:induction false} JoinedWords(es: seq<string>, ws: seq<string>)
    requires |es| == |ws| && forall i :: 0 <= i < |ws| ==> ws[i] != [] && Spells(es[i], ws[i])
    ensures WordsOf(Join(es)) == ws
    decreases |es|
  {
    if es != [] {
      OneWord(es[0], ws[0]);
      if |es| > 1 {
        JoinedWords(es[1..], ws[1..]);
        WordsConcat(es[0], ' ', Join(es[1..]));
        assert ws == [ws[0]] + ws[1..];
      } else {
        assert ws == [ws[0]];
      }
    }
  }

  lemma OneWord(e: string, w: string)
    requires w != [] && Spells(e, w)
    ensures WordsOf(e) == [w] && After(START, e).mode == Normal
  {
    assert After(State(Normal, [], []), e) == State(Normal, [] + w, []);
    assert [] + w == w;
  }

  /** tokenize undoes writing words in any way that spells them: it returns the
      words when each is at most 4094 characters long, and aborts otherwise. */
  lemma SpellingsTokenize(es: seq<string>, ws: seq<string>)
    requires |es| == |ws| && forall i :: 0 <= i < |ws| ==> ws[i] != [] && Spells(es[i], ws[i])
    ensures Tokenized(START, Join(es)) ==
      if forall i :: 0 <= i < |ws| ==> |ws[i]| <= 4094 then Done(ws) else Aborted
  {
    hide Spells;
    JoinedWords(es, ws);
    TokenizeExactly(Join(es));
  }

  function WrittenAll(pss: seq<seq<Part>>): (es: seq<string>)
    ensures |es| == |pss| && forall i :: 0 <= i < |pss| ==> es[i] == Written(pss[i])
  {
    if pss == [] then [] else [Written(pss[0])] + WrittenAll(pss[1..])
  }

  /** Words written partly bare, partly escaped and partly in quotes of either
      kind, as each part likes, come back as they were meant. */
  lemma PartsRoundTrip(pss: seq<seq<Part>>, ws: seq<string>)
    requires forall i, j :: 0 <= i < |pss| && 0 <= j < |pss[i]| ==> pss[i][j].Valid()
    requires |ws| == |pss| && forall i :: 0 <= i < |ws| ==> ws[i] == Meant(pss[i]) && ws[i] != []
    ensures Tokenized(START, Join(WrittenAll(pss))) ==
      if forall i :: 0 <= i < |ws| ==> |ws[i]| <= 4094 then Done(ws) else Aborted
  {
    hide Spells, Tokenized, Join, Written, Meant, Part.Valid;
    forall i | 0 <= i < |ws| ensures Spells(WrittenAll(pss)[i], ws[i]) {
      PartsSpell(pss[i]);
    }
    SpellingsTokenize(WrittenAll(pss), ws);
  }

  function EscapeAll(ws: seq<string>): (es: seq<string>)
    ensures |es| == |ws| && forall i :: 0 <= i < |ws| ==> es[i] == Escape(ws[i])
  {
    if ws == [] then [] else [Escape(ws[0])] + EscapeAll(ws[1..])
  }

  /** tokenize is a left inverse of escaping. */
  lemma EscapedRoundTrip(ws: seq<string>)
    requires forall i :: 0 <= i < |ws| ==> ws[i] != []
    ensures Tokenized(START, Join(EscapeAll(ws))) ==
      if forall i :: 0 <= i < |ws| ==> |ws[i]| <= 4094 then Done(ws) else Aborted
  {
    hide Spells, Tokenized, Join;
    forall i | 0 <= i < |ws| ensures Spells(EscapeAll(ws)[i], ws[i]) {
      EscapeSpells(ws[i]);
    }
    SpellingsTokenize(EscapeAll(ws), ws);
  }
}
