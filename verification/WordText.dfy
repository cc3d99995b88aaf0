/** Reading words from a character stream. */
module WordText {
  import opened CType

  function Lower(s: string): (t: string)
    ensures |t| == |s|
  {
    seq(|s|, i requires 0 <= i < |s| => LowerChar(s[i]))
  }

  /** How far the alphabetic stretch at position p reaches. */
  function StretchEnd(s: string, p: nat): (e: nat)
    requires p <= |s|
    ensures p <= e <= |s|
    ensures forall i :: p <= i < e ==> Alpha(s[i])
    ensures e < |s| ==> !Alpha(s[e])
    decreases |s| - p
  {
    if p < |s| && Alpha(s[p]) then StretchEnd(s, p + 1) else p
  }

  /** The lower-cased alphabetic stretches from position p on. */
  ghost function Stretches(s: string, p: nat): seq<string>
    requires p <= |s|
    decreases |s| - p
  {
    if p == |s| then []
    else if !Alpha(s[p]) then Stretches(s, p + 1)
    else [Lower(s[p..StretchEnd(s, p)])] + Stretches(s, StretchEnd(s, p))
  }

  /** What count_words counts: single letters are not words. */
  ghost function LongOnes(ws: seq<string>): seq<string> {
    if ws == [] then []
    else (if |ws[0]| == 1 then [] else [ws[0]]) + LongOnes(ws[1..])
  }

  ghost function WordsOf(s: string): seq<string> {
    LongOnes(Stretches(s, 0))
  }

  // ----- The same, said position by position -----

  /** There is no letter at position i. */
  ghost predicate NoLetter(s: string, i: int) {
    !(0 <= i < |s|) || !('a' <= s[i] <= 'z' || 'A' <= s[i] <= 'Z')
  }

  /** w is what the letters from position i on spell in lower case, a capital
      being 32 below its small letter. */
  ghost predicate SpeltAt(s: string, i: nat, w: string) {
    && i + |w| <= |s|
    && forall k :: 0 <= k < |w| ==>
      'a' <= w[k] <= 'z' && (s[i + k] == w[k] || s[i + k] as int + 32 == w[k] as int)
  }

  /** Word w stands at position i: it is spelt there, and no letter adjoins it on
      either side. */
  ghost predicate WordAt(s: string, i: nat, w: string) {
    w != [] && SpeltAt(s, i, w) && NoLetter(s, i - 1) && NoLetter(s, i + |w|)
  }

  lemma LowerCharSpelt(c: char, w: char)
    ensures Alpha(c) && LowerChar(c) == w <==> 'a' <= w <= 'z' && (c == w || c as int + 32 == w as int)
  {}

  lemma LowerIsSpelt(s: string, i: nat, e: nat)
    requires i <= e <= |s| && forall k :: i <= k < e ==> Alpha(s[k])
    ensures SpeltAt(s, i, Lower(s[i..e]))
  {
    hide Alpha, LowerChar;
    var w := Lower(s[i..e]);
    forall k | 0 <= k < |w|
      ensures 'a' <= w[k] <= 'z' && (s[i + k] == w[k] || s[i + k] as int + 32 == w[k] as int)
    {
      LowerCharSpelt(s[i + k], w[k]);
    }
  }

  lemma SpeltIsLower(s: string, i: nat, w: string)
    requires SpeltAt(s, i, w)
    ensures w == Lower(s[i..i + |w|]) && forall k :: i <= k < i + |w| ==> Alpha(s[k])
  {
    hide Alpha, LowerChar;
    forall k | i <= k < i + |w| ensures Alpha(s[k]) && LowerChar(s[k]) == w[k - i] {
      assert s[i + (k - i)] == s[k];
      LowerCharSpelt(s[k], w[k - i]);
    }
  }

  lemma NoWordHere(s: string, i: nat, w: string)
    requires i < |s| && !Alpha(s[i])
    ensures !WordAt(s, i, w)
  {
    if SpeltAt(s, i, w) {
      SpeltIsLower(s, i, w);
    }
  }

  ghost function Places(s: string, p: nat, w: string): set<nat> {
    set i: nat | p <= i < |s| && WordAt(s, i, w)
  }

  lemma {:induction false} StretchesArePlaces(s: string, p: nat, w: string)
    requires p <= |s|
    requires p == 0 || p == |s| || !Alpha(s[p - 1]) || !Alpha(s[p])
    ensures multiset(Stretches(s, p))[w] == |Places(s, p, w)|
    decreases |s| - p
  {
    if p == |s| {
    } else if !Alpha(s[p]) {
      StretchesArePlaces(s, p + 1, w);
      NoWordHere(s, p, w);
      assert Places(s, p, w) == Places(s, p + 1, w);
    } else {
      var e := StretchEnd(s, p);
      StretchesArePlaces(s, e, w);
      PlacesSplit(s, p, e, w);
      CountCons(Lower(s[p..e]), Stretches(s, e), w);
    }
  }

  lemma CountCons(x: string, ws: seq<string>, w: string)
    ensures multiset([x] + ws)[w] == (if x == w then 1 else 0) + multiset(ws)[w]
  {}

  lemma PlacesSplit(s: string, p: nat, e: nat, w: string)
    requires p < |s| && Alpha(s[p]) && e == StretchEnd(s, p) && (p == 0 || !Alpha(s[p - 1]))
    ensures |Places(s, p, w)| == |Places(s, e, w)| + if w == Lower(s[p..e]) then 1 else 0
  {
    WordHere(s, p, e, w);
    assert p < e;
    PlacesFrom(s, p, e, w);
  }

  lemma PlacesFrom(s: string, p: nat, e: nat, w: string)
    requires p < e <= |s| && forall i: nat :: p < i < e ==> !WordAt(s, i, w)
    ensures |Places(s, p, w)| == |Places(s, e, w)| + if WordAt(s, p, w) then 1 else 0
  {
    hide WordAt;
    var here := if WordAt(s, p, w) then {p} else {};
    forall i: nat ensures i in Places(s, p, w) <==> i in Places(s, e, w) + here {}
    assert Places(s, p, w) == Places(s, e, w) + here;
    assert Places(s, e, w) !! here;
  }

  /** Inside a stretch a word can stand only at its beginning, and fills it. */
  lemma WordHere(s: string, p: nat, e: nat, w: string)
    requires p < |s| && Alpha(s[p]) && e == StretchEnd(s, p) && (p == 0 || !Alpha(s[p - 1]))
    ensures WordAt(s, p, w) <==> w == Lower(s[p..e])
    ensures forall i: nat :: p < i < e ==> !WordAt(s, i, w)
  {
    LowerIsSpelt(s, p, e);
    if SpeltAt(s, p, w) {
      SpeltIsLower(s, p, w);
      assert p + |w| < e ==> Alpha(s[p + |w|]);
      assert e < |s| ==> !Alpha(s[e]);
    }
    forall i: nat | p < i < e ensures !WordAt(s, i, w) {
      assert Alpha(s[i - 1]);
    }
  }

  lemma {:induction false} LongOnesCount(ws: seq<string>, w: string)
    ensures multiset(LongOnes(ws))[w] == if |w| == 1 then 0 else multiset(ws)[w]
  {
    if ws != [] {
      LongOnesCount(ws[1..], w);
      assert ws == [ws[0]] + ws[1..];
    }
  }

  /** A word of at least two letters is counted once for every place where it
      stands; nothing else is counted. */
  lemma WordsOfArePlaces(s: string, w: string)
    ensures multiset(WordsOf(s))[w] == if |w| == 1 then 0 else |Places(s, 0, w)|
  {
    StretchesArePlaces(s, 0, w);
    LongOnesCount(Stretches(s, 0), w);
  }

  /** A run of two letters or more begins at position i. */
  ghost predicate LongStart(s: string, i: nat) {
    NoLetter(s, i - 1) && !NoLetter(s, i) && !NoLetter(s, i + 1)
  }

  ghost function LongStarts(s: string, p: nat): set<nat> {
    set i: nat | p <= i < |s| && LongStart(s, i)
  }

  lemma LongStartsSkip(s: string, p: nat)
    requires p < |s| && !Alpha(s[p])
    ensures LongStarts(s, p) == LongStarts(s, p + 1)
  {}

  lemma LongStartsFrom(s: string, p: nat, e: nat)
    requires p < |s| && Alpha(s[p]) && e == StretchEnd(s, p) && (p == 0 || !Alpha(s[p - 1]))
    ensures p < e && |LongStarts(s, p)| == |LongStarts(s, e)| + if e == p + 1 then 0 else 1
  {
    assert e < |s| ==> !Alpha(s[e]);
    var here := if e == p + 1 then {} else {p};
    forall i: nat ensures i in LongStarts(s, p) <==> i in LongStarts(s, e) + here {}
    assert LongStarts(s, p) == LongStarts(s, e) + here;
  }

  lemma {:induction false} StretchesAreLong(s: string, p: nat)
    requires p <= |s|
    requires p == 0 || p == |s| || !Alpha(s[p - 1]) || !Alpha(s[p])
    ensures |LongOnes(Stretches(s, p))| == |LongStarts(s, p)|
    decreases |s| - p
  {
    hide LongStarts, Lower, StretchEnd, LongOnes;
    NothingLong(s);
    if p < |s| && !Alpha(s[p]) {
      StretchesAreLong(s, p + 1);
      LongStartsSkip(s, p);
    } else if p < |s| {
      var e := StretchEnd(s, p);
      LongStartsFrom(s, p, e);
      StretchesAreLong(s, e);
      LongOnesCons(Lower(s[p..e]), Stretches(s, e));
    }
  }

  lemma NothingLong(s: string)
    ensures LongStarts(s, |s|) == {} && LongOnes([]) == []
  {}

  /** As many words are counted as there are runs of two letters or more. */
  lemma WordsOfNumber(s: string)
    ensures |WordsOf(s)| == |LongStarts(s, 0)|
  {
    StretchesAreLong(s, 0);
  }

  /** Every counted word is lower-case and has at least two letters. */
  ghost predicate LowerWord(w: string) {
    w != [] && forall i :: 0 <= i < |w| ==> 'a' <= w[i] <= 'z'
  }

  lemma {:induction false} StretchesLower(s: string, p: nat)
    requires p <= |s|
    ensures forall w :: w in Stretches(s, p) ==> LowerWord(w)
    decreases |s| - p
  {
    if p < |s| {
      if Alpha(s[p]) {
        var e := StretchEnd(s, p);
        StretchesLower(s, e);
        var t := s[p..e];
        assert forall i :: 0 <= i < |t| ==> Alpha(t[i]);
        assert LowerWord(Lower(t));
      } else {
        StretchesLower(s, p + 1);
      }
    }
  }

  lemma LongOnesCons(w: string, ws: seq<string>)
    ensures LongOnes([w] + ws) == if |w| == 1 then LongOnes(ws) else [w] + LongOnes(ws)
  {
    assert ([w] + ws)[1..] == ws;
  }

  lemma {:induction false} LongOnesAmong(ws: seq<string>)
    ensures forall w :: w in LongOnes(ws) ==> w in ws && |w| != 1
  {
    if ws != [] {
      LongOnesAmong(ws[1..]);
    }
  }

  lemma WordsOfLower(s: string)
    ensures forall w :: w in WordsOf(s) ==> LowerWord(w) && |w| >= 2
  {
    StretchesLower(s, 0);
    LongOnesAmong(Stretches(s, 0));
  }

  // ----- get_word -----

  /** A stream: its characters and how many have been read. */
  class Stream {
    const text: string
    var pos: nat

    ghost predicate Valid()
      reads this
    {
      pos <= |text|
    }

    constructor (text: string)
      ensures Valid() && this.text == text && pos == 0
    {
      this.text := text;
      pos := 0;
    }
  }

  /** The first loop of get_word. */
  method SkipNonAlpha(infile: Stream)
    requires infile.Valid()
    modifies infile
    ensures infile.Valid() && infile.pos >= old(infile.pos)
    ensures infile.pos < |infile.text| ==> Alpha(infile.text[infile.pos])
    ensures Stretches(infile.text, infile.pos) == Stretches(infile.text, old(infile.pos))
  {
    while infile.pos < |infile.text| && !Alpha(infile.text[infile.pos])
      invariant infile.Valid() && infile.pos >= old(infile.pos)
      invariant Stretches(infile.text, infile.pos) == Stretches(infile.text, old(infile.pos))
      decreases |infile.text| - infile.pos
    {
      infile.pos := infile.pos + 1;
    }
  }

  /** realloc to twice the size: what was in the buffer stays. */
  method Double(buffer: array<char>, bufferCap: nat) returns (newBuffer: array<char>)
    requires buffer.Length == bufferCap
    ensures fresh(newBuffer) && newBuffer.Length == 2 * bufferCap
    ensures newBuffer[..bufferCap] == buffer[..]
  {
    newBuffer := new char[2 * bufferCap];
    forall i | 0 <= i < bufferCap {
      newBuffer[i] := buffer[i];
    }
  }

  /** One character goes into the buffer, which doubles when that fills it. */
  method Put(buffer: array<char>, bufferCap: nat, index: nat, c: char)
    returns (newBuffer: array<char>, newCap: nat)
    requires index < bufferCap == buffer.Length
    modifies buffer
    ensures newBuffer == buffer || fresh(newBuffer)
    ensures index + 1 < newCap == newBuffer.Length
    ensures newBuffer[..index + 1] == old(buffer[..index]) + [c]
  {
    buffer[index] := c;
    newBuffer, newCap := buffer, bufferCap;
    assert buffer[..index + 1] == buffer[..index] + [c];
    if index + 1 == bufferCap {
      newCap := bufferCap * 2;
      newBuffer := Double(buffer, bufferCap);
      assert buffer[..] == buffer[..index + 1];
    }
  }

  lemma LowerStep(s: string, i: nat, j: nat)
    requires i <= j < |s|
    ensures Lower(s[i..j + 1]) == Lower(s[i..j]) + [LowerChar(s[j])]
  {}

  /** The second loop of get_word: accumulates a stretch of letters in a buffer
      that doubles when it is full, and ends it with a null character. */
  method Accumulate(infile: Stream) returns (word: string, index: nat)
    requires infile.pos < |infile.text| && Alpha(infile.text[infile.pos])
    modifies infile
    ensures infile.pos == StretchEnd(infile.text, old(infile.pos)) == old(infile.pos) + index
    ensures index >= 1 && word == Lower(infile.text[old(infile.pos)..infile.pos])
    ensures SpeltAt(infile.text, old(infile.pos), word) && NoLetter(infile.text, old(infile.pos) + |word|)
  {
    hide Lower, LowerChar, Alpha, StretchEnd;
    ghost var s, start := infile.text, infile.pos;
    ghost var end := StretchEnd(s, start);
    var bufferCap := 16;
    var buffer := new char[bufferCap];
    index := 0;
    LowerNothing(s, start);
    while index == 0 || (infile.pos < |infile.text| && Alpha(infile.text[infile.pos]))
      invariant infile.pos == start + index <= |s|
      invariant fresh(buffer) && bufferCap == buffer.Length
      invariant index < bufferCap && (index == 0 ==> start < |s| && Alpha(s[start]))
      invariant end == StretchEnd(s, infile.pos)
      invariant buffer[..index] == Lower(s[start..start + index])
      decreases |s| - infile.pos
    {
      LowerStep(s, start, start + index);
      StretchStep(s, start + index);
      buffer, bufferCap := Put(buffer, bufferCap, index, LowerChar(infile.text[infile.pos]));
      index := index + 1;
      infile.pos := infile.pos + 1;
    }
    StretchStop(s, infile.pos);
    buffer[index] := '\0';
    word := buffer[..index];
    LowerIsSpelt(s, start, start + index);
    NoLetterAt(s, end);
  }

  lemma StretchStep(s: string, p: nat)
    requires p < |s| && Alpha(s[p])
    ensures StretchEnd(s, p) == StretchEnd(s, p + 1)
  {}

  lemma StretchStop(s: string, p: nat)
    requires p <= |s| && (p < |s| ==> !Alpha(s[p]))
    ensures StretchEnd(s, p) == p
  {}

  lemma NoLetterAt(s: string, p: nat)
    requires p < |s| ==> !Alpha(s[p])
    ensures NoLetter(s, p)
  {}

  lemma LowerNothing(s: string, p: nat)
    requires p <= |s|
    ensures Lower(s[p..p]) == []
  {}

  /** get_word: the next stretch; length 0 reports the end of the stream. */
  method GetWord(infile: Stream) returns (word: string, index: nat)
    requires infile.Valid()
    modifies infile
    ensures infile.Valid() && index == |word| && infile.pos >= old(infile.pos)
    ensures index == 0 ==> infile.pos == |infile.text| && Stretches(infile.text, old(infile.pos)) == []
    ensures index > 0 ==> old(infile.pos) < infile.pos
    ensures index > 0 ==> Stretches(infile.text, old(infile.pos)) == [word] + Stretches(infile.text, infile.pos)
  {
    SkipNonAlpha(infile);
    if infile.pos == |infile.text| {
      return [], 0;
    }
    word, index := Accumulate(infile);
    if infile.pos < |infile.text| {
      infile.pos := infile.pos + 1;
    }
  }
}
