/** Printing a word list and reading it back: fprint_words writes "%8d\t%s\n",
    merge_counts reads with "%8d\t%ms\n" (ISO C99, sections 7.19.6.1 and
    7.19.6.2). */
module WordPrint {
  import opened CType
  import opened Words
  import opened WordText

  // ----- Decimal numbers -----

  function DigitOf(n: nat): (c: char)
    requires n < 10
    ensures Digit(c)
  {
    (n + '0' as int) as char
  }

  function DigitValue(c: char): nat
    requires Digit(c)
  {
    c as int - '0' as int
  }

  function Dec(n: nat): (s: string)
    ensures s != [] && forall i :: 0 <= i < |s| ==> Digit(s[i])
  {
    if n < 10 then [DigitOf(n)] else Dec(n / 10) + [DigitOf(n % 10)]
  }

  function ToNat(s: string): nat
    requires forall i :: 0 <= i < |s| ==> Digit(s[i])
  {
    if s == [] then 0 else 10 * ToNat(s[..|s| - 1]) + DigitValue(s[|s| - 1])
  }

  lemma {:induction false} DecToNat(n: nat)
    ensures ToNat(Dec(n)) == n
  {
    if n >= 10 {
      DecToNat(n / 10);
      var s := Dec(n);
      assert s[..|s| - 1] == Dec(n / 10);
    }
  }

  function Power10(k: nat): nat {
    if k == 0 then 1 else 10 * Power10(k - 1)
  }

  lemma {:induction false} DecLength(n: nat, k: nat)
    requires k >= 1
    ensures |Dec(n)| <= k <==> n < Power10(k)
  {
    if n >= 10 && k > 1 {
      DecLength(n / 10, k - 1);
    } else if n >= 10 {
      assert Power10(1) == 10 by { assert Power10(0) == 1; }
    } else {
      TenAtLeast(k);
    }
  }

  lemma {:induction false} TenAtLeast(k: nat)
    requires k >= 1
    ensures Power10(k) >= 10
  {
    if k > 1 {
      TenAtLeast(k - 1);
    }
  }

  /** Leading digits of a positive number are a positive number. */
  lemma {:induction false} DecPrefixPositive(n: nat, k: nat)
    requires n >= 1 && 1 <= k <= |Dec(n)|
    ensures ToNat(Dec(n)[..k]) >= 1
  {
    if k == |Dec(n)| {
      assert Dec(n)[..k] == Dec(n);
      DecToNat(n);
    } else {
      assert Dec(n)[..k] == Dec(n / 10)[..k];
      DecPrefixPositive(n / 10, k);
    }
  }

  // ----- fprint_words -----

  function Spaces(n: nat): (s: string)
    ensures |s| == n
  {
    if n == 0 then "" else " " + Spaces(n - 1)
  }

  /** "%d". */
  function Signed(n: int): string {
    if n < 0 then "-" + Dec(-n) else Dec(n)
  }

  /** "%8d": right-aligned in eight columns, and longer if need be. */
  function Field(n: int): string {
    var d := Signed(n);
    if |d| < 8 then Spaces(8 - |d|) + d else d
  }

  function PrintEntry(e: Entry): string {
    Field(e.count) + "\t" + e.word + "\n"
  }

  function Print(es: seq<Entry>): string {
    if es == [] then "" else PrintEntry(es[0]) + Print(es[1..])
  }

  // ----- The printed text, spelled out -----

  /** d is the decimal numeral of n: one digit for each power of ten, none of
      them a leading zero. */
  ghost predicate Decimal(d: string, n: nat) {
    && d != [] && n < Power10(|d|) && (|d| > 1 ==> Power10(|d| - 1) <= n)
    && forall i :: 0 <= i < |d| ==> d[i] == "0123456789"[DigitAt(n, |d| - 1 - i)]
  }

  /** The digit of n that counts 10^k. */
  ghost function DigitAt(n: nat, k: nat): (v: nat)
    ensures v < 10
  {
    PowerPositive(k);
    n / Power10(k) % 10
  }

  /** A line of the output: b blanks, which with a sign and the numeral fill eight
      columns if the number is short enough, then a tab, the word and a newline. */
  ghost predicate LineIs(line: string, e: Entry, b: nat, d: string) {
    var number := (if e.count < 0 then "-" else "") + d;
    && Decimal(d, if e.count < 0 then -e.count else e.count)
    && b == (if |number| < 8 then 8 - |number| else 0)
    && b <= |line| && (forall i :: 0 <= i < b ==> line[i] == ' ')
    && line[b..] == number + "\t" + e.word + "\n"
  }

  ghost predicate IsLine(line: string, e: Entry) {
    exists b: nat, d: string :: LineIs(line, e, b, d)
  }

  /** The text consists of one line for each entry, in order. */
  ghost predicate IsText(out: string, es: seq<Entry>)
    decreases |es|
  {
    if es == [] then out == []
    else exists k: nat :: k <= |out| && IsLine(out[..k], es[0]) && IsText(out[k..], es[1..])
  }

  lemma {:induction false} PowerPositive(k: nat)
    ensures Power10(k) > 0
  {
    if k > 0 {
      PowerPositive(k - 1);
    }
  }

  lemma TenToTheEighth()
    ensures Power10(8) == 100000000
  {
    assert Power10(4) == 10000;
  }

  lemma NonNegativeProduct(c: nat, x: nat)
    ensures c * x >= 0
  {}

  /** A multiple of c other than zero is at least c away from it. */
  lemma FarMultiple(c: nat, x: int)
    ensures x > 0 ==> c * x >= c
    ensures x < 0 ==> c * x <= 0 - c
  {
    if x > 0 {
      NonNegativeProduct(c, x - 1);
      assert c * x == c * (x - 1) + c;
    } else if x < 0 {
      NonNegativeProduct(c, -x - 1);
      assert c * x == 0 - c * (-x - 1) - c;
    }
  }

  lemma QuotientIs(n: nat, c: nat, p: nat, r: nat)
    requires n == c * p + r && r < c
    ensures n / c == p
  {
    var q, m := n / c, n % c;
    assert n == c * q + m && 0 <= m < c;
    assert c * (q - p) == c * q - c * p;
    FarMultiple(c, q - p);
  }

  lemma DivideTwice(n: nat, b: nat)
    requires b > 0
    ensures n / 10 / b == n / (10 * b)
  {
    var q, r := n / 10, n % 10;
    var p, t := q / b, q % b;
    var x := b * p;
    assert q == x + t && t < b;
    assert (10 * b) * p == 10 * x;
    QuotientIs(n, 10 * b, p, 10 * t + r);
  }

  lemma DigitAtShift(n: nat, k: nat)
    ensures DigitAt(n, k + 1) == DigitAt(n / 10, k)
    ensures DigitAt(n, 0) == n % 10
  {
    PowerPositive(k);
    DivideTwice(n, Power10(k));
  }

  lemma {:induction false} DecDigits(n: nat)
    ensures forall i :: 0 <= i < |Dec(n)| ==> Dec(n)[i] == "0123456789"[DigitAt(n, |Dec(n)| - 1 - i)]
  {
    var d := Dec(n);
    DigitAtShift(n, 0);
    hide DigitAt;
    if n < 10 {
      assert "0123456789"[n] == DigitOf(n);
    } else {
      var c := Dec(n / 10);
      DecDigits(n / 10);
      forall i | 0 <= i < |d| ensures d[i] == "0123456789"[DigitAt(n, |d| - 1 - i)] {
        if i == |c| {
          assert "0123456789"[n % 10] == DigitOf(n % 10);
        } else {
          DigitAtShift(n, |c| - 1 - i);
          assert d[i] == c[i];
        }
      }
    }
  }

  lemma DecIsDecimal(n: nat)
    ensures Decimal(Dec(n), n)
  {
    hide Dec, Power10, DigitAt;
    var d := Dec(n);
    DecDigits(n);
    DecLength(n, |d|);
    if |d| > 1 {
      DecLength(n, |d| - 1);
    }
  }

  /** A number has only one numeral. */
  lemma DecimalIsDec(d: string, n: nat)
    requires Decimal(d, n)
    ensures d == Dec(n)
  {
    hide Dec, Power10, DigitAt;
    var c := Dec(n);
    DecDigits(n);
    DecLength(n, |d|);
    if |d| > 1 {
      DecLength(n, |d| - 1);
    }
    assert |c| == |d|;
    assert forall i :: 0 <= i < |d| ==> d[i] == c[i];
  }

  lemma {:induction false} SpacesAreSpaces(n: nat)
    ensures forall i :: 0 <= i < n ==> Spaces(n)[i] == ' '
  {
    if n > 0 {
      SpacesAreSpaces(n - 1);
    }
  }

  lemma Parts(a: string, b: string)
    ensures |a + b| == |a| + |b| && (a + b)[..|a|] == a && (a + b)[|a|..] == b
    ensures forall i :: 0 <= i < |a| ==> (a + b)[i] == a[i]
  {}

  lemma PrintEntryParts(e: Entry)
    ensures var number := Signed(e.count);
      PrintEntry(e) == Spaces(if |number| < 8 then 8 - |number| else 0) + (number + "\t" + e.word + "\n")
  {
    hide Signed, Spaces;
    SpacesNone();
    var number := Signed(e.count);
    var b := if |number| < 8 then 8 - |number| else 0;
    assert Field(e.count) == Spaces(b) + number;
    assert Spaces(b) + number + "\t" + e.word + "\n" == Spaces(b) + (number + "\t" + e.word + "\n");
  }

  lemma SpacesNone()
    ensures Spaces(0) == ""
  {}

  function Magnitude(n: int): nat {
    if n < 0 then 0 - n else n
  }

  /** What is printed for an entry is a line as described. */
  lemma PrintedLine(e: Entry) returns (b: nat)
    ensures LineIs(PrintEntry(e), e, b, Dec(Magnitude(e.count)))
  {
    var d, number := Dec(Magnitude(e.count)), Signed(e.count);
    assert number == (if e.count < 0 then "-" else "") + d;
    hide Dec, Spaces, Decimal, PrintEntry, Signed;
    DecIsDecimal(Magnitude(e.count));
    b := if |number| < 8 then 8 - |number| else 0;
    SpacesAreSpaces(b);
    PrintEntryParts(e);
    Parts(Spaces(b), number + "\t" + e.word + "\n");
  }

  lemma SameLine(line: string, l: string, e: Entry, b: nat, c: nat, d: string)
    requires LineIs(line, e, b, d) && LineIs(l, e, c, d)
    ensures line == l
  {
    hide Decimal;
    assert b == c;
    assert line[b..] == l[b..];
    assert forall i :: 0 <= i < b ==> line[i] == l[i];
    assert line[..b] == l[..b];
    assert line == line[..b] + line[b..] && l == l[..b] + l[b..];
  }

  lemma LineNumeral(line: string, e: Entry, b: nat, d: string)
    requires LineIs(line, e, b, d)
    ensures d == Dec(Magnitude(e.count))
  {
    hide Decimal, Dec;
    DecimalIsDec(d, Magnitude(e.count));
  }

  /** No other line is. */
  lemma LineIsPrinted(line: string, e: Entry)
    requires IsLine(line, e)
    ensures line == PrintEntry(e)
  {
    hide LineIs, PrintEntry, Dec;
    var b: nat, d: string :| LineIs(line, e, b, d);
    LineNumeral(line, e, b, d);
    var c := PrintedLine(e);
    SameLine(line, PrintEntry(e), e, b, c, d);
  }

  lemma EntryIsLine(e: Entry)
    ensures IsLine(PrintEntry(e), e)
  {
    var b := PrintedLine(e);
  }

  /** The text fprint_words prints is exactly the text described. */
  lemma {:induction false} PrintedText(out: string, es: seq<Entry>)
    ensures IsText(out, es) <==> out == Print(es)
    decreases |es|
  {
    hide PrintEntry, IsLine;
    if es != [] {
      var l, r := PrintEntry(es[0]), Print(es[1..]);
      if out == Print(es) {
        assert out[..|l|] == l && out[|l|..] == r;
        EntryIsLine(es[0]);
        PrintedText(r, es[1..]);
      }
      if IsText(out, es) {
        var k: nat :| k <= |out| && IsLine(out[..k], es[0]) && IsText(out[k..], es[1..]);
        LineIsPrinted(out[..k], es[0]);
        PrintedText(out[k..], es[1..]);
        assert out == out[..k] + out[k..];
      }
    }
  }

  lemma ShortParts(line: string, b: nat, d: string, w: string)
    requires b + |d| == 8 && b <= |line| && line[b..] == d + "\t" + w + "\n"
    ensures |line| == 8 + 1 + |w| + 1 && line[8] == '\t' && line[|line| - 1] == '\n'
    ensures line[9..|line| - 1] == w && line[b..8] == d
  {
    var t := line[b..];
    assert |t| == |d| + |w| + 2;
    assert forall i :: 0 <= i < |t| ==> line[b + i] == t[i];
    assert t[..|d|] == d && t[|d|] == '\t' && t[|d| + 1..|t| - 1] == w && t[|t| - 1] == '\n';
    assert line[b..8] == t[..|d|] && line[9..|line| - 1] == t[|d| + 1..|t| - 1];
  }

  /** In particular, a count of at most eight digits fills exactly eight columns. */
  lemma PrintedShort(e: Entry) returns (b: nat)
    requires 0 <= e.count < 100000000
    ensures var line := PrintEntry(e);
      && |line| == 8 + 1 + |e.word| + 1 && line[8] == '\t' && line[9..|line| - 1] == e.word && line[|line| - 1] == '\n'
      && b < 8 && (forall i :: 0 <= i < b ==> line[i] == ' ') && Decimal(line[b..8], e.count)
  {
    hide Decimal, PrintEntry, Power10, Dec;
    b := PrintedLine(e);
    var line, d := PrintEntry(e), Dec(e.count);
    TenToTheEighth();
    DecLength(e.count, 8);
    assert "" + d == d;
    ShortParts(line, b, d, e.word);
  }

  /** And a longer one takes as many columns as it has digits. */
  lemma PrintedLong(e: Entry)
    requires e.count >= 100000000
    ensures PrintEntry(e) == Dec(e.count) + "\t" + e.word + "\n" && Decimal(Dec(e.count), e.count) && |Dec(e.count)| > 8
  {
    hide Decimal, PrintEntry, Power10, Dec;
    var b := PrintedLine(e);
    TenToTheEighth();
    DecLength(e.count, 8);
    assert PrintEntry(e)[0..] == PrintEntry(e);
    assert "" + Dec(e.count) == Dec(e.count);
  }

  // ----- fscanf -----

  function SkipSpace(s: string): (t: string)
    ensures |t| <= |s|
    ensures t != [] ==> !Space(t[0])
  {
    if s != [] && Space(s[0]) then SkipSpace(s[1..]) else s
  }

  /** How many leading digits there are, up to max. */
  function DigitRun(s: string, max: nat): (k: nat)
    ensures k <= max && k <= |s|
    ensures forall i :: 0 <= i < k ==> Digit(s[i])
  {
    if max > 0 && s != [] && Digit(s[0]) then 1 + DigitRun(s[1..], max - 1) else 0
  }

  function WordRun(s: string): (k: nat)
    ensures k <= |s|
  {
    if s != [] && !Space(s[0]) then 1 + WordRun(s[1..]) else 0
  }

  datatype Scan = Eof | Failed(matched: nat) | Matched(count: int, word: string, rest: string)

  /** One call of fscanf with "%8d\t%ms\n". A sign counts towards the width. */
  function ScanEntry(s: string): (r: Scan)
    ensures r.Matched? ==> |r.rest| < |s|
  {
    var t := SkipSpace(s);
    if t == [] then Eof
    else if t[0] == '-' then ScanCount(t[1..], 7, -1)
    else if t[0] == '+' then ScanCount(t[1..], 7, 1)
    else ScanCount(t, 8, 1)
  }

  /** The rest of the call, from the digits on. */
  function ScanCount(t: string, width: nat, sign: int): (r: Scan)
    ensures r.Matched? ==> |r.rest| < |t|
  {
    var k := DigitRun(t, width);
    if k == 0 then Failed(0)
    else
      var v := SkipSpace(t[k..]);
      if v == [] then Failed(1)
      else Matched(sign * ToNat(t[..k]), v[..WordRun(v)], SkipSpace(v[WordRun(v)..]))
  }

  // ----- merge_counts -----

  /** The list merge_counts leaves, and whether it read the stream to its end. */
  function MergeText(es: seq<Entry>, s: string): (seq<Entry>, bool)
    decreases |s|
  {
    match ScanEntry(s)
    case Matched(n, w, rest) => MergeText(AddBack(es, w, n), rest)
    case Eof => (es, true)
    case Failed(_) => (es, false)
  }

  /** What merging is meant to do: add every count. */
  ghost function AddEntries(es: seq<Entry>, fs: seq<Entry>): seq<Entry>
    decreases |fs|
  {
    if fs == [] then es else AddEntries(AddBack(es, fs[0].word, fs[0].count), fs[1..])
  }

  ghost predicate LowerWords(es: seq<Entry>) {
    forall i :: 0 <= i < |es| ==> LowerWord(es[i].word)
  }

  // ----- Reading back one line -----

  lemma {:induction false} SkipSpaces(n: nat, t: string)
    ensures SkipSpace(Spaces(n) + t) == SkipSpace(t)
  {
    if n == 0 {
      assert Spaces(0) + t == t;
    } else {
      SkipSpaces(n - 1, t);
      assert (Spaces(n) + t)[1..] == Spaces(n - 1) + t;
    }
  }

  lemma {:induction false} DigitRunIs(d: string, t: string, max: nat)
    requires forall i :: 0 <= i < |d| ==> Digit(d[i])
    requires t != [] && (|d| <= max ==> !Digit(t[0]))
    ensures DigitRun(d + t, max) == if |d| <= max then |d| else max
    decreases |d|
  {
    if d == [] {
      assert d + t == t;
    } else if max > 0 {
      assert (d + t)[1..] == d[1..] + t;
      DigitRunIs(d[1..], t, max - 1);
    }
  }

  lemma {:induction false} WordRunIs(w: string, t: string)
    requires (forall i :: 0 <= i < |w| ==> !Space(w[i])) && t != [] && Space(t[0])
    ensures WordRun(w + t) == |w|
    decreases |w|
  {
    if w == [] {
      assert w + t == t;
    } else {
      assert (w + t)[1..] == w[1..] + t;
      WordRunIs(w[1..], t);
    }
  }

  /** A scan, part by part: k digits, then v, whose first w characters are the word. */
  lemma ScanParts(s: string, t: string, k: nat, v: string, w: nat)
    requires SkipSpace(s) == t && t != [] && Digit(t[0])
    requires DigitRun(t, 8) == k && k > 0 && SkipSpace(t[k..]) == v && v != [] && WordRun(v) == w
    ensures ScanEntry(s) == Matched(ToNat(t[..k]), v[..w], SkipSpace(v[w..]))
  {
    hide ToNat;
  }

  lemma LettersOnly(w: string)
    requires LowerWord(w)
    ensures w != [] && forall i :: 0 <= i < |w| ==> !Space(w[i])
  {}

  lemma TabSkipped(w: string, n: string)
    requires LowerWord(w)
    ensures SkipSpace("\t" + w + n) == w + n
  {
    hide SkipSpace, LowerWord;
    LettersOnly(w);
    var v := w + n;
    assert v[0] == w[0];
    assert "\t" + w + n == ['\t'] + v;
    SkipOne('\t', v);
    SkipNone(v);
  }

  lemma LineTail(w: string, rest: string)
    requires LowerWord(w)
    ensures SkipSpace("\t" + w + "\n" + rest) == w + ("\n" + rest)
    ensures WordRun(w + ("\n" + rest)) == |w|
    ensures SkipSpace("\n" + rest) == SkipSpace(rest)
  {
    hide SkipSpace, WordRun, LowerWord;
    var n := "\n" + rest;
    assert "\t" + w + "\n" + rest == "\t" + w + n;
    TabSkipped(w, n);
    LettersOnly(w);
    WordRunIs(w, n);
    SkipOne('\n', rest);
  }

  lemma SkipOne(c: char, t: string)
    requires Space(c)
    ensures SkipSpace([c] + t) == SkipSpace(t)
  {
    assert ([c] + t)[1..] == t;
  }

  lemma SkipNone(t: string)
    requires t != [] && !Space(t[0])
    ensures SkipSpace(t) == t
  {}

  lemma PrintLine(e: Entry, rest: string)
    ensures PrintEntry(e) + rest == Field(e.count) + ("\t" + e.word + "\n" + rest)
  {
    hide Field;
    assert Field(e.count) + "\t" + e.word + "\n" + rest == Field(e.count) + ("\t" + e.word + "\n" + rest);
  }

  /** A line whose count fits the field is read back as it was written. */
  lemma ScanShort(e: Entry, rest: string)
    requires 0 <= e.count < Power10(8) && LowerWord(e.word)
    ensures ScanEntry(PrintEntry(e) + rest) == Matched(e.count, e.word, SkipSpace(rest))
  {
    hide Dec, Field, ToNat, ScanEntry, SkipSpace, DigitRun, WordRun, Power10, PrintEntry;
    var d := Dec(e.count);
    var tail := "\t" + e.word + "\n" + rest;
    DecLength(e.count, 8);
    DecToNat(e.count);
    FieldSkipped(e.count, tail);
    LineTail(e.word, rest);
    PrintLine(e, rest);
    DigitRunIs(d, tail, 8);
    var t, v := d + tail, e.word + ("\n" + rest);
    assert t[..|d|] == d && t[|d|..] == tail && t[0] == d[0];
    assert v[..|e.word|] == e.word && v[|e.word|..] == "\n" + rest;
    ScanParts(PrintEntry(e) + rest, t, |d|, v, |e.word|);
  }

  lemma FieldSkipped(n: int, tail: string)
    ensures SkipSpace(Field(n) + tail) == Signed(n) + tail
  {
    SignedStarts(n);
    hide Dec, Signed, Spaces, SkipSpace;
    var d := Signed(n);
    var t := d + tail;
    assert t[0] == d[0];
    SkipNone(t);
    if |d| < 8 {
      SkipSpaces(8 - |d|, t);
      assert Field(n) + tail == Spaces(8 - |d|) + t;
    }
  }

  lemma SignedStarts(n: int)
    ensures Signed(n) != [] && !Space(Signed(n)[0])
  {
    hide Dec;
  }

  /** So is a negative one, whose sign takes one of the eight columns. */
  lemma ScanNegative(e: Entry, rest: string)
    requires 0 - Power10(7) < e.count < 0 && LowerWord(e.word)
    ensures ScanEntry(PrintEntry(e) + rest) == Matched(e.count, e.word, SkipSpace(rest))
  {
    hide Dec, Field, ToNat, ScanEntry, SkipSpace, DigitRun, WordRun, Power10, PrintEntry;
    var d := Dec(-e.count);
    var tail := "\t" + e.word + "\n" + rest;
    DecLength(-e.count, 7);
    DecToNat(-e.count);
    FieldSkipped(e.count, tail);
    LineTail(e.word, rest);
    PrintLine(e, rest);
    DigitRunIs(d, tail, 7);
    var t, v := d + tail, e.word + ("\n" + rest);
    assert t[..|d|] == d && t[|d|..] == tail;
    assert v[..|e.word|] == e.word && v[|e.word|..] == "\n" + rest;
    assert "-" + d + tail == ['-'] + t;
    ScanSigned(PrintEntry(e) + rest, '-', t, |d|, v, |e.word|);
  }

  /** A scan with a sign, part by part. */
  lemma ScanSigned(s: string, sign: char, t: string, k: nat, v: string, w: nat)
    requires sign == '-' || sign == '+'
    requires SkipSpace(s) == [sign] + t
    requires DigitRun(t, 7) == k && k > 0 && SkipSpace(t[k..]) == v && v != [] && WordRun(v) == w
    ensures ScanEntry(s) == Matched(if sign == '-' then 0 - ToNat(t[..k]) else ToNat(t[..k]), v[..w], SkipSpace(v[w..]))
  {
    hide ToNat, SkipSpace, DigitRun, WordRun;
    assert ([sign] + t)[1..] == t;
  }

  /** A longer count is cut after eight digits, and the other digits are taken
      for the word; the real word is left for the next call. */
  lemma ScanLong(e: Entry, rest: string)
    requires e.count >= Power10(8) && LowerWord(e.word)
    ensures var d := Dec(e.count);
      && |d| > 8
      && ScanEntry(PrintEntry(e) + rest) == Matched(ToNat(d[..8]), d[8..], e.word + ("\n" + rest))
  {
    DecLength(e.count, 8);
    hide Dec, Field, ToNat, ScanEntry, SkipSpace, DigitRun, WordRun, Power10, LowerWord, PrintEntry;
    var d := Dec(e.count);
    var tail := "\t" + e.word + "\n" + rest;
    FieldSkipped(e.count, tail);
    LineTail(e.word, rest);
    PrintLine(e, rest);
    DigitRunIs(d, tail, 8);
    LongParts(d, tail);
    var t, v := d + tail, d[8..] + tail;
    SkipNone(v);
    WordRunIs(d[8..], tail);
    ScanParts(PrintEntry(e) + rest, t, 8, v, |d| - 8);
  }

  lemma LongParts(d: string, tail: string)
    requires |d| > 8
    ensures (d + tail)[..8] == d[..8] && (d + tail)[8..] == d[8..] + tail
    ensures (d + tail)[0] == d[0] && (d[8..] + tail)[0] == d[8]
    ensures (d[8..] + tail)[..|d| - 8] == d[8..] && (d[8..] + tail)[|d| - 8..] == tail
  {}

  /** A line that starts with a word is not an entry. */
  lemma ScanWord(w: string, rest: string)
    requires LowerWord(w)
    ensures ScanEntry(w + rest) == Failed(0)
  {
    assert (w + rest)[0] == w[0];
  }

  // ----- The round trip -----

  ghost predicate Fits(es: seq<Entry>) {
    forall i :: 0 <= i < |es| ==> es[i].count < Power10(8)
  }

  lemma {:induction false} SkipSpaceTwice(s: string)
    ensures SkipSpace(SkipSpace(s)) == SkipSpace(s)
  {
    if s != [] && Space(s[0]) {
      SkipSpaceTwice(s[1..]);
    }
  }

  /** Leading white space makes no difference to the rest of the run. */
  lemma MergeSkips(es: seq<Entry>, s: string)
    ensures MergeText(es, SkipSpace(s)) == MergeText(es, s)
  {
    SkipSpaceTwice(s);
  }

  /** Reading what was printed adds every count, while counts fit the field. */
  lemma {:induction false} MergeShort(acc: seq<Entry>, es: seq<Entry>, rest: string)
    requires LowerWords(es) && Fits(es) && forall i :: 0 <= i < |es| ==> es[i].count >= 0
    ensures MergeText(acc, Print(es) + rest) == MergeText(AddEntries(acc, es), rest)
    decreases |es|
  {
    hide Power10, PrintEntry, ScanEntry, SkipSpace, AddBack, LowerWord;
    if es == [] {
      assert Print(es) + rest == rest;
    } else {
      var e, more := es[0], Print(es[1..]) + rest;
      ScanShort(e, more);
      assert Print(es) + rest == PrintEntry(e) + more;
      MergeSkips(AddBack(acc, e.word, e.count), more);
      MergeShort(AddBack(acc, e.word, e.count), es[1..], rest);
    }
  }

  /** A count that does not fit ends the run, after a made-up word of digits. */
  lemma MergeLong(acc: seq<Entry>, e: Entry, rest: string)
    requires e.count >= Power10(8) && LowerWord(e.word)
    ensures var d := Dec(e.count);
      && |d| > 8
      && MergeText(acc, PrintEntry(e) + rest) == (AddBack(acc, d[8..], ToNat(d[..8])), false)
  {
    ScanLong(e, rest);
    ScanWord(e.word, "\n" + rest);
  }

  lemma {:induction false} AddEntriesCounts(acc: seq<Entry>, es: seq<Entry>)
    requires Proper(acc) && forall i :: 0 <= i < |es| ==> es[i].count >= 1
    ensures Proper(AddEntries(acc, es))
    ensures forall x :: Total(AddEntries(acc, es), x) == Total(acc, x) + Total(es, x)
    decreases |es|
  {
    if es != [] {
      AddBackCounts(acc, es[0].word, es[0].count);
      AddEntriesCounts(AddBack(acc, es[0].word, es[0].count), es[1..]);
    }
  }

  lemma {:induction false} NoSuchWord(es: seq<Entry>, x: string)
    requires forall i :: 0 <= i < |es| ==> es[i].word != x
    ensures Total(es, x) == 0
  {
    if es != [] {
      NoSuchWord(es[1..], x);
    }
  }

  /** Words of letters never total anything for a word of digits. */
  lemma NotAWord(es: seq<Entry>, x: string)
    requires LowerWords(es) && x != [] && Digit(x[0])
    ensures Total(es, x) == 0
  {
    NoSuchWord(es, x);
  }

  lemma {:induction false} PrintConcat(a: seq<Entry>, b: seq<Entry>)
    ensures Print(a + b) == Print(a) + Print(b)
    decreases |a|
  {
    hide PrintEntry;
    if a == [] {
      assert a + b == b;
    } else {
      assert (a + b)[1..] == a[1..] + b;
      PrintConcat(a[1..], b);
    }
  }

  /** The first entry that does not fit. */
  ghost function FirstLong(es: seq<Entry>): (k: nat)
    ensures k <= |es| && (k == |es| <==> Fits(es))
    ensures forall i :: 0 <= i < k ==> es[i].count < Power10(8)
    ensures k < |es| ==> es[k].count >= Power10(8)
  {
    if es == [] then 0
    else if es[0].count >= Power10(8) then 0
    else
      assert forall i :: 0 < i < |es| ==> es[i] == es[1..][i - 1];
      1 + FirstLong(es[1..])
  }

  lemma {:induction false} TotalOfPrefix(es: seq<Entry>, k: nat, x: string)
    requires Proper(es) && k <= |es|
    ensures Proper(es[..k]) && Total(es[..k], x) >= 0
  {
    TotalOfMember(es[..k], Entry(x, 0));
  }

  /** With a count that does not fit, merging stops early, and some word of
      digits gains a count that it should not have. No count is lost of what
      was there before. */
  lemma MergeMiscounts(acc: seq<Entry>, es: seq<Entry>) returns (x: string)
    requires Proper(acc) && Proper(es) && LowerWords(es) && !Fits(es)
    ensures !MergeText(acc, Print(es)).1 && Proper(MergeText(acc, Print(es)).0)
    ensures x != [] && Digit(x[0]) && Total(es, x) == 0
    ensures Total(MergeText(acc, Print(es)).0, x) > Total(acc, x)
    ensures forall y :: Total(MergeText(acc, Print(es)).0, y) >= Total(acc, y)
  {
    hide Power10, Dec, ToNat, MergeText, AddBack, AddEntries, Print, Total, Proper;
    var k := FirstLong(es);
    var a, e, b := es[..k], es[k], es[k + 1..];
    assert es == a + [e] + b;
    ProperCounts(es);
    TotalOfPrefix(es, k, "");
    ProperCounts(a);
    var acc' := AddEntries(acc, a);
    AddEntriesCounts(acc, a);
    PrintAround(a, e, b);
    MergeShort(acc, a, PrintEntry(e) + Print(b));
    MergeLong(acc', e, Print(b));
    var d := Dec(e.count);
    x := d[8..];
    assert Digit(x[0]);
    DigitsPositive(e.count);
    AddBackCounts(acc', x, ToNat(d[..8]));
    NotAWord(es, x);
    forall y ensures Total(acc', y) >= Total(acc, y) {
      TotalOfPrefix(es, k, y);
    }
  }

  lemma ProperCounts(es: seq<Entry>)
    requires Proper(es)
    ensures forall i :: 0 <= i < |es| ==> es[i].count >= 1
  {}

  lemma DigitsPositive(n: nat)
    requires n >= Power10(8)
    ensures |Dec(n)| > 8 && ToNat(Dec(n)[..8]) >= 1
  {
    DecLength(n, 8);
    TenAtLeast(8);
    DecPrefixPositive(n, 8);
  }

  lemma PrintAround(a: seq<Entry>, e: Entry, b: seq<Entry>)
    ensures Print(a + [e] + b) == Print(a) + (PrintEntry(e) + Print(b))
  {
    hide PrintEntry;
    PrintConcat([e], b);
    PrintConcat(a, [e] + b);
    assert a + [e] + b == a + ([e] + b);
    assert [e][1..] == [];
  }

  /** Printing and merging adds every count to the accumulator, reading the
      stream to its end, exactly when every count is below 100000000. */
  lemma PrintMergeRoundTrip(acc: seq<Entry>, es: seq<Entry>)
    requires Proper(acc) && Proper(es) && LowerWords(es)
    ensures Fits(es) ==> MergeText(acc, Print(es)) == (AddEntries(acc, es), true)
    ensures Fits(es) <==>
      forall x :: Total(MergeText(acc, Print(es)).0, x) == Total(acc, x) + Total(es, x)
    ensures MergeText(acc, Print(es)).1 <==> Fits(es)
  {
    hide Power10, ToNat, Print, AddEntries;
    if Fits(es) {
      MergeShort(acc, es, "");
      assert Print(es) + "" == Print(es);
      AddEntriesCounts(acc, es);
    } else {
      var x := MergeMiscounts(acc, es);
    }
  }
}
