/** The four word counting programs, from the text of the files to the text
    they print. */
module WordPrograms {
  import opened Orders
  import opened Placing
  import opened Words
  import opened WordText
  import opened WordPrint
  import opened WordReport
  import WordCountList
  import WordListPintos
  import PintosList

  // ----- fprint_words and merge_counts -----

  lemma PrintRest(es: seq<Entry>, k: nat)
    requires k < |es|
    ensures Print(es[k..]) == PrintEntry(es[k]) + Print(es[k + 1..])
  {
    assert es[k..][0] == es[k] && es[k..][1..] == es[k + 1..];
  }

  /** fprint_words of word_count.c. */
  method FprintWords(wclist: WordCountList.WordList) returns (outfile: string)
    requires wclist.Valid()
    ensures outfile == Print(wclist.Contents()) && IsText(outfile, wclist.Contents())
  {
    hide Print, PrintEntry, IsText;
    ghost var es, k := wclist.Contents(), 0;
    var wc := wclist.head;
    outfile := "";
    while wc != null
      invariant 0 <= k <= |es| && wc == if k == |es| then null else wclist.nodes[k]
      invariant outfile + Print(es[k..]) == Print(es)
      decreases |es| - k
    {
      PrintRest(es, k);
      outfile := outfile + PrintEntry(Entry(wc.word, wc.count));
      wc := wc.next;
      k := k + 1;
    }
    PrintNothing(es[k..]);
    PrintedText(outfile, es);
  }

  lemma PrintNothing(es: seq<Entry>)
    requires es == []
    ensures Print(es) == ""
  {}

  /** fprint_words of word_count_l.c. */
  method FprintWordsPintos(wclist: WordListPintos.WordList) returns (outfile: string)
    requires wclist.Valid()
    ensures |wclist.list.chain| >= 2 && outfile == Print(wclist.Contents()) && IsText(outfile, wclist.Contents())
  {
    hide Print, PrintEntry, IsText, PintosList.Linked, Keys;
    var list := wclist.list;
    list.At(0);
    list.At(1);
    ghost var es, s, k := wclist.Contents(), list.Elems(), 0;
    WordListPintos.KeysAt(WordListPintos.EntryOf(wclist.held), s);
    var e := list.head.next;
    outfile := "";
    while e != list.tail
      invariant 0 <= k <= |s| && e == list.chain[k + 1]
      invariant e == list.tail <==> k == |s|
      invariant outfile + Print(es[k..]) == Print(es)
      decreases |s| - k
    {
      PrintRest(es, k);
      outfile := outfile + PrintEntry(wclist.held[e]);
      list.At(k + 1);
      list.At(k + 2);
      e := e.next;
      k := k + 1;
    }
    PrintNothing(es[k..]);
    PrintedText(outfile, es);
  }

  /** merge_counts: reads entries until a call of fscanf does not match both. */
  method MergeCounts(wclist: WordListPintos.WordList, countStream: string) returns (readAll: bool)
    requires wclist.Valid()
    modifies wclist, wclist.list, wclist.list.nodes
    ensures wclist.Valid() && |wclist.list.chain| >= 2 && old(|wclist.list.chain| >= 2)
    ensures (wclist.Contents(), readAll) == MergeText(old(wclist.Contents()), countStream)
    ensures forall e :: e in wclist.list.nodes ==> e in old(wclist.list.nodes) || fresh(e)
  {
    hide Keys, PintosList.Linked, AddBack, ScanEntry;
    wclist.list.At(0);
    ghost var target := MergeText(wclist.Contents(), countStream);
    var stream := countStream;
    var rv := ScanEntry(stream);
    while rv.Matched?
      invariant wclist.Valid() && |wclist.list.chain| >= 2
      invariant forall e :: e in wclist.list.nodes ==> e in old(wclist.list.nodes) || fresh(e)
      invariant rv == ScanEntry(stream) && target == MergeText(wclist.Contents(), stream)
      decreases |stream|
    {
      wclist.AddWordWithCount(rv.word, rv.count);
      stream := rv.rest;
      rv := ScanEntry(stream);
    }
    readAll := rv.Eof?;
  }

  // ----- words -----

  lemma FileTaken(files: seq<string>, i: nat)
    requires i < |files|
    ensures files[..i + 1] == files[..i] + [files[i]]
  {}

  /** words: one list, file after file, insertion sort. */
  method RunWords(files: seq<string>) returns (out: string)
    ensures IsReport(out, files)
  {
    hide CountsOf, Sorted, Print, WordCountList.Chain, WordCountList.Entries, Stretches, LongOnes, AddAllFront;
    var wordCounts := new WordCountList.WordList();
    NothingCounted();
    for i := 0 to |files|
      invariant wordCounts.Valid() && fresh(wordCounts)
      invariant forall k :: 0 <= k < |wordCounts.nodes| ==> fresh(wordCounts.nodes[k])
      invariant CountsOf(wordCounts.Contents(), files[..i])
    {
      var infile := new Stream(files[i]);
      FileCountedFront(wordCounts.Contents(), files[..i], files[i]);
      FileTaken(files, i);
      wordCounts.CountWords(infile);
    }
    ghost var es := wordCounts.Contents();
    assert files[..|files|] == files;
    LessCountStrictTotal();
    wordCounts.Sort(LessCount);
    PlaceSortCorrect(ByCount(), es);
    SortedIsReport(es, wordCounts.Contents(), files);
    out := FprintWords(wordCounts);
  }

  // ----- lwords -----

  /** What main does after counting: sort by count, then print. */
  method SortAndPrint(wordCounts: WordListPintos.WordList) returns (out: string, ghost fs: seq<Entry>)
    requires wordCounts.Valid()
    modifies wordCounts.list, wordCounts.list.nodes
    ensures old(|wordCounts.list.chain| >= 2)
    ensures Sorted(ByCount(), fs) && multiset(fs) == multiset(old(wordCounts.Contents()))
    ensures out == Print(fs)
  {
    hide Sorted, Print, Keys, PintosList.Linked;
    LessCountStrictTotal();
    wordCounts.Sort(LessCount);
    fs := wordCounts.Contents();
    out := FprintWordsPintos(wordCounts);
  }

  /** lwords: one list, file after file, merge sort. */
  method RunLwords(files: seq<string>) returns (out: string)
    ensures IsReport(out, files)
  {
    hide CountsOf, Sorted, Print, Keys, PintosList.Linked, Stretches, LongOnes, AddAllBack;
    var wordCounts := new WordListPintos.WordList();
    NothingCounted();
    for i := 0 to |files|
      invariant wordCounts.Valid() && |wordCounts.list.chain| >= 2
      invariant fresh(wordCounts) && fresh(wordCounts.list) && fresh(wordCounts.list.nodes)
      invariant CountsOf(wordCounts.Contents(), files[..i])
    {
      var infile := new Stream(files[i]);
      FileCountedBack(wordCounts.Contents(), files[..i], files[i]);
      FileTaken(files, i);
      wordCounts.CountWords(infile);
    }
    ghost var es := wordCounts.Contents();
    assert files[..|files|] == files;
    ghost var fs;
    out, fs := SortAndPrint(wordCounts);
    SortedIsReport(es, fs, files);
  }

  // ----- pwords -----

  /** A stream as a value. */
  datatype Reading = Reading(text: string, pos: nat) {
    ghost predicate Valid() {
      pos <= |text|
    }

    /** The words that the thread reading here has still to add. */
    ghost function Ahead(): seq<string>
      requires Valid()
    {
      LongOnes(Stretches(text, pos))
    }
  }

  ghost function ReadingOf(infile: Stream): Reading
    reads infile
  {
    Reading(infile.text, infile.pos)
  }

  ghost function ReadingsOf(infiles: seq<Stream>): (rs: seq<Reading>)
    reads infiles
    ensures |rs| == |infiles| && forall i :: 0 <= i < |infiles| ==> rs[i] == ReadingOf(infiles[i])
  {
    if infiles == [] then [] else [ReadingOf(infiles[0])] + ReadingsOf(infiles[1..])
  }

  /** One turn of the loop of count_words, the unit by which threads
      interleave: get_word reads the thread's own stream, add_word holds the
      lock. */
  method ThreadStep(wordCounts: WordListPintos.WordList, infile: Stream) returns (more: bool)
    requires wordCounts.Valid() && infile.Valid()
    modifies wordCounts, wordCounts.list, wordCounts.list.nodes, infile
    ensures wordCounts.Valid() && |wordCounts.list.chain| >= 2 && old(|wordCounts.list.chain| >= 2)
    ensures forall e :: e in wordCounts.list.nodes ==> e in old(wordCounts.list.nodes) || fresh(e)
    ensures infile.Valid() && Turned(old(ReadingOf(infile)), ReadingOf(infile), more,
                                     old(wordCounts.Contents()), wordCounts.Contents())
  {
    hide Keys, PintosList.Linked, Stretches, LongOnes, AddBack;
    wordCounts.list.At(0);
    var word, len := GetWord(infile);
    LongOnesCons(word, Stretches(infile.text, infile.pos));
    NoWords(infile.text);
    if len == 0 {
      return false;
    }
    if len != 1 {
      wordCounts.AddWordWithCount(word, 1);
    }
    more := true;
  }

  /** A turn adds the next word, or skips a single letter, or finds the end. */
  ghost predicate Turned(r: Reading, r': Reading, more: bool, es: seq<Entry>, es': seq<Entry>)
    requires r.Valid() && r'.Valid()
  {
    && r'.text == r.text && r'.pos >= r.pos && (more ==> r'.pos > r.pos) && (!more ==> r'.Ahead() == [])
    && ((r'.Ahead() == r.Ahead() && es' == es)
        || (r.Ahead() != [] && r'.Ahead() == r.Ahead()[1..] && es' == AddBack(es, r.Ahead()[0], 1)))
  }

  lemma NoWords(text: string)
    ensures LongOnes([]) == [] && Stretches(text, |text|) == []
  {}

  /** What is left to all the threads. */
  ghost function AllAhead(rs: seq<Reading>): (todo: seq<seq<string>>)
    requires forall i :: 0 <= i < |rs| ==> rs[i].Valid()
    ensures |todo| == |rs| && forall i :: 0 <= i < |rs| ==> todo[i] == rs[i].Ahead()
  {
    if rs == [] then [] else [rs[0].Ahead()] + AllAhead(rs[1..])
  }

  /** fopen, for every file. */
  method OpenAll(files: seq<string>) returns (infiles: seq<Stream>)
    ensures |infiles| == |files|
    ensures forall i :: 0 <= i < |files| ==> ReadingsOf(infiles)[i] == Reading(files[i], 0) && fresh(infiles[i])
    ensures forall i, j :: 0 <= i < j < |infiles| ==> infiles[i] != infiles[j]
  {
    hide ReadingsOf;
    infiles := [];
    for t := 0 to |files|
      invariant |infiles| == t
      invariant forall i :: 0 <= i < t ==> fresh(infiles[i]) && ReadingOf(infiles[i]) == Reading(files[i], 0)
      invariant forall i, j :: 0 <= i < j < t ==> infiles[i] != infiles[j]
    {
      var f := new Stream(files[t]);
      infiles := infiles + [f];
    }
  }

  ghost function FuelLeft(fuel: seq<nat>): nat {
    if fuel == [] then 0 else fuel[0] + FuelLeft(fuel[1..])
  }

  lemma {:induction false} LessFuel(fuel: seq<nat>, t: nat, f: nat)
    requires t < |fuel| && f < fuel[t]
    ensures FuelLeft(fuel[t := f]) < FuelLeft(fuel)
  {
    if t == 0 {
      assert fuel[0 := f][1..] == fuel[1..];
    } else {
      LessFuel(fuel[1..], t - 1, f);
      assert fuel[t := f][1..] == fuel[1..][t - 1 := f];
    }
  }

  /** How much reading is left to a thread; until it has seen the end of its
      stream it has one more turn. */
  ghost function Fuel(r: Reading, running: bool): nat
    requires r.Valid()
  {
    |r.text| - r.pos + if running then 1 else 0
  }

  /** The threads and the shared list es, between turns. */
  ghost predicate Threads(files: seq<string>, rs: seq<Reading>, running: seq<bool>, fuel: seq<nat>, es: seq<Entry>) {
    && |rs| == |running| == |fuel|
    && (forall i :: 0 <= i < |rs| ==>
      rs[i].Valid() && fuel[i] == Fuel(rs[i], running[i]) && (!running[i] ==> rs[i].Ahead() == []))
    && Balanced(State(es, AllAhead(rs)), files)
  }

  /** A turn of thread t keeps the balance and uses up fuel. */
  lemma TurnTaken(files: seq<string>, rs: seq<Reading>, running: seq<bool>, fuel: seq<nat>, es: seq<Entry>,
                  t: nat, r: Reading, more: bool, es': seq<Entry>)
    returns (fuel': seq<nat>)
    requires Threads(files, rs, running, fuel, es) && t < |rs| && running[t]
    requires r.Valid() && Turned(rs[t], r, more, es, es')
    ensures Threads(files, rs[t := r], running[t := more], fuel', es') && FuelLeft(fuel') < FuelLeft(fuel)
  {
    hide Balanced, AddBack, FuelLeft, Stretches, LongOnes, AllAhead;
    fuel' := fuel[t := Fuel(r, more)];
    LessFuel(fuel, t, Fuel(r, more));
    var todo, todo' := AllAhead(rs), AllAhead(rs[t := r]);
    if r.Ahead() == rs[t].Ahead() && es' == es {
      assert todo' == todo;
    } else {
      StepBalanced(State(es, todo), t, files);
      assert todo' == todo[t := todo[t][1..]];
    }
  }

  /** One turn of thread t. */
  method OneTurn(wordCounts: WordListPintos.WordList, infiles: seq<Stream>, ghost files: seq<string>, t: nat,
                 ghost running: seq<bool>, ghost fuel: seq<nat>)
    returns (more: bool, ghost fuel': seq<nat>)
    requires wordCounts.Valid() && |wordCounts.list.chain| >= 2
    requires Threads(files, ReadingsOf(infiles), running, fuel, wordCounts.Contents())
    requires forall i, j :: 0 <= i < j < |infiles| ==> infiles[i] != infiles[j]
    requires t < |infiles| == |running| && running[t]
    modifies wordCounts, wordCounts.list, wordCounts.list.nodes, infiles
    ensures wordCounts.Valid() && |wordCounts.list.chain| >= 2
    ensures forall e :: e in wordCounts.list.nodes ==> e in old(wordCounts.list.nodes) || fresh(e)
    ensures Threads(files, ReadingsOf(infiles), running[t := more], fuel', wordCounts.Contents())
    ensures FuelLeft(fuel') < FuelLeft(fuel)
  {
    hide Keys, PintosList.Linked, ReadingsOf, FuelLeft, Turned, Threads;
    hide WordListPintos.WordList.Valid, WordListPintos.WordList.Contents;
    ghost var es, rs := wordCounts.Contents(), ReadingsOf(infiles);
    ThreadValid(files, rs, running, fuel, es, t);
    more := ThreadStep(wordCounts, infiles[t]);
    ghost var r := ReadingOf(infiles[t]);
    assert ReadingsOf(infiles) == rs[t := r];
    fuel' := TurnTaken(files, rs, running, fuel, es, t, r, more, wordCounts.Contents());
  }

  lemma ThreadValid(files: seq<string>, rs: seq<Reading>, running: seq<bool>, fuel: seq<nat>, es: seq<Entry>, t: nat)
    requires Threads(files, rs, running, fuel, es) && t < |rs|
    ensures rs[t].Valid()
  {}

  lemma ThreadsBegin(files: seq<string>, rs: seq<Reading>) returns (fuel: seq<nat>)
    requires |rs| == |files| && forall i :: 0 <= i < |rs| ==> rs[i] == Reading(files[i], 0)
    ensures Threads(files, rs, seq(|files|, _ => true), fuel, [])
  {
    hide Balanced, Stretches, LongOnes, AllAhead, Todo;
    fuel := seq(|rs|, i requires 0 <= i < |rs| => |files[i]| + 1);
    ThreadsCount(files, []);
    assert AllAhead(rs) == Todo(files);
  }

  lemma ThreadsEnd(files: seq<string>, rs: seq<Reading>, running: seq<bool>, fuel: seq<nat>, es: seq<Entry>)
    requires Threads(files, rs, running, fuel, es) && forall t :: 0 <= t < |running| ==> !running[t]
    ensures CountsOf(es, files)
  {
    hide Waiting, Total, Proper, AllAhead;
    var todo := AllAhead(rs);
    forall x ensures Total(es, x) == Occurrences(files, x) {
      NoneWaiting(todo, x);
    }
  }

  /** All threads, in any order, until each has seen the end of its stream. */
  method RunThreads(wordCounts: WordListPintos.WordList, infiles: seq<Stream>, files: seq<string>)
    requires wordCounts.Valid() && |wordCounts.list.chain| >= 2 && wordCounts.Contents() == []
    requires |infiles| == |files| && forall i, j :: 0 <= i < j < |infiles| ==> infiles[i] != infiles[j]
    requires forall i :: 0 <= i < |files| ==> ReadingsOf(infiles)[i] == Reading(files[i], 0)
    modifies wordCounts, wordCounts.list, wordCounts.list.nodes, infiles
    ensures wordCounts.Valid() && |wordCounts.list.chain| >= 2
    ensures forall e :: e in wordCounts.list.nodes ==> e in old(wordCounts.list.nodes) || fresh(e)
    ensures CountsOf(wordCounts.Contents(), files)
  {
    hide Keys, PintosList.Linked, Threads, FuelLeft, CountsOf, ReadingsOf;
    var running := seq(|files|, _ => true);
    ghost var fuel := ThreadsBegin(files, ReadingsOf(infiles));
    while exists t :: 0 <= t < |running| && running[t]
      invariant wordCounts.Valid() && |wordCounts.list.chain| >= 2
      invariant forall e :: e in wordCounts.list.nodes ==> e in old(wordCounts.list.nodes) || fresh(e)
      invariant |running| == |infiles| && Threads(files, ReadingsOf(infiles), running, fuel, wordCounts.Contents())
      decreases FuelLeft(fuel)
    {
      var t :| 0 <= t < |running| && running[t];
      var more;
      more, fuel := OneTurn(wordCounts, infiles, files, t, running, fuel);
      running := running[t := more];
    }
    ThreadsEnd(files, ReadingsOf(infiles), running, fuel, wordCounts.Contents());
  }

  /** pwords: one thread a file, one shared list, merge sort. */
  method RunPwords(files: seq<string>) returns (out: string)
    ensures IsReport(out, files)
  {
    hide CountsOf, Sorted, Print, Keys, PintosList.Linked, ReadingsOf;
    var wordCounts := new WordListPintos.WordList();
    var infiles := OpenAll(files);
    RunThreads(wordCounts, infiles, files);
    ghost var es, fs := wordCounts.Contents(), [];
    out, fs := SortAndPrint(wordCounts);
    SortedIsReport(es, fs, files);
  }

  // ----- fwords -----

  /** A child process: counts its file on a list of its own and prints that. */
  method RunChild(file: string) returns (text: string)
    ensures text == Print(ChildList(file))
  {
    hide Proper, Print, Keys, PintosList.Linked, Stretches, LongOnes, AddAllBack, Total;
    var wordCounts := new WordListPintos.WordList();
    var infile := new Stream(file);
    wordCounts.CountWords(infile);
    text := FprintWordsPintos(wordCounts);
  }

  /** fwords: every child prints what it counted; then the parent merges the
      texts in order, sorts and prints. */
  method RunFwords(files: seq<string>) returns (out: string)
    ensures IsReport(out, files) <==> AllFit(files)
  {
    hide IsReport, AllFit, Sorted, Proper, Print, Keys, PintosList.Linked, ChildList, MergeText, Merged;
    var pipes: seq<string> := [];
    for t := 0 to |files|
      invariant |pipes| == t
      invariant forall i :: 0 <= i < t ==> pipes[i] == Print(ChildList(files[i]))
    {
      var text := RunChild(files[t]);
      pipes := pipes + [text];
    }
    var wordCounts := new WordListPintos.WordList();
    NothingMerged();
    for t := 0 to |files|
      invariant wordCounts.Valid() && |wordCounts.list.chain| >= 2
      invariant fresh(wordCounts) && fresh(wordCounts.list) && fresh(wordCounts.list.nodes)
      invariant wordCounts.Contents() == Merged(files[..t])
    {
      MergedNext(files, t, pipes[t]);
      var readAll := MergeCounts(wordCounts, pipes[t]);
    }
    assert files[..|files|] == files;
    MergedWrong(files);
    ghost var fs;
    out, fs := SortAndPrint(wordCounts);
    FwordsReports(files, fs);
  }

  lemma NothingMerged()
    ensures Merged([]) == []
  {}

  lemma MergedNext(files: seq<string>, t: nat, text: string)
    requires t < |files| && text == Print(ChildList(files[t]))
    ensures Merged(files[..t + 1]) == MergeText(Merged(files[..t]), text).0
  {
    hide ChildList, MergeText;
    assert files[..t + 1][..t] == files[..t];
  }
}
