/** What words, lwords, pwords and fwords are to print, defined by the places
    where words stand in the files, and why each way of counting gets there. */
module WordReport {
  import opened CType
  import opened Orders
  import opened Words
  import opened WordText
  import opened WordPrint

  // ----- The reference -----

  /** How often x counts in one file; single letters do not count. */
  ghost function FileCount(file: string, x: string): nat {
    if |x| == 1 then 0 else |Places(file, 0, x)|
  }

  ghost function Occurrences(files: seq<string>, x: string): nat {
    if files == [] then 0 else FileCount(files[0], x) + Occurrences(files[1..], x)
  }

  /** The list says of every word how often it occurs in the files. */
  ghost predicate CountsOf(es: seq<Entry>, files: seq<string>) {
    Proper(es) && forall x :: Total(es, x) == Occurrences(files, x)
  }

  /** The text is that of a list which says of every word how often it occurs in
      the files, fewer occurrences first, and in dictionary order among equals. */
  ghost predicate IsReport(out: string, files: seq<string>) {
    exists es :: CountsOf(es, files) && InReportOrder(es) && IsText(out, es)
  }

  /** A sorted list that counts the files, when printed, gives a report. */
  lemma ReportOf(es: seq<Entry>, files: seq<string>)
    requires CountsOf(es, files) && Sorted(ByCount(), es)
    ensures IsReport(Print(es), files)
  {
    SortedInOrder(es);
    PrintedText(Print(es), es);
  }

  /** Every report comes about in this way. */
  lemma ReportFrom(out: string, files: seq<string>) returns (es: seq<Entry>)
    requires IsReport(out, files)
    ensures CountsOf(es, files) && Sorted(ByCount(), es) && out == Print(es)
  {
    es :| CountsOf(es, files) && InReportOrder(es) && IsText(out, es);
    SortedInOrder(es);
    PrintedText(out, es);
  }

  /** There is only one such text, so programs that print one agree. */
  lemma ReportUnique(a: string, b: string, files: seq<string>)
    requires IsReport(a, files) && IsReport(b, files)
    ensures a == b
  {
    hide IsReport, Print, Sorted, Listing, Total;
    var es := ReportFrom(a, files);
    var fs := ReportFrom(b, files);
    SortedIsListing(es, es);
    SortedIsListing(fs, fs);
    ListingOfTotals(es, fs);
  }

  /** Sorting a list that counts the files and printing it gives the report. */
  lemma SortedIsReport(es: seq<Entry>, fs: seq<Entry>, files: seq<string>)
    requires CountsOf(es, files) && Sorted(ByCount(), fs) && multiset(fs) == multiset(es)
    ensures CountsOf(fs, files) && IsReport(Print(fs), files)
  {
    hide IsReport, Print, Sorted;
    SameEntriesSameTotals(es, fs);
    ReportOf(fs, files);
  }

  lemma {:induction false} TotalOfPermutation(es: seq<Entry>, fs: seq<Entry>, x: string)
    requires multiset(es) == multiset(fs)
    ensures Total(es, x) == Total(fs, x)
    decreases |es|
  {
    assert |multiset(es)| == |es| && |multiset(fs)| == |fs|;
    if es != [] {
      var j := WithoutHead(es, fs);
      TotalOfPermutation(es[1..], fs[..j] + fs[j + 1..], x);
      TotalAppend(fs[..j], [fs[j]] + fs[j + 1..], x);
      TotalAppend(fs[..j], fs[j + 1..], x);
      assert fs == fs[..j] + ([fs[j]] + fs[j + 1..]);
      assert ([fs[j]] + fs[j + 1..])[1..] == fs[j + 1..];
    }
  }

  lemma SameEntriesSameTotals(es: seq<Entry>, fs: seq<Entry>)
    requires Proper(es) && multiset(es) == multiset(fs)
    ensures Proper(fs) && forall x :: Total(fs, x) == Total(es, x)
  {
    forall x ensures Total(fs, x) == Total(es, x) {
      TotalOfPermutation(es, fs, x);
    }
    SameMembers(es, fs);
    assert Distinct(es);
    DistinctPermuted(es, fs);
    forall i, j | 0 <= i < j < |fs| ensures fs[i].word != fs[j].word {
      PermutedDistinct(es, fs, i, j);
    }
    forall i | 0 <= i < |fs| ensures fs[i].count >= 1 {
      assert fs[i] in es;
    }
  }

  lemma PermutedDistinct(es: seq<Entry>, fs: seq<Entry>, i: nat, j: nat)
    requires Proper(es) && Distinct(fs) && i < j < |fs| && fs[i] in es && fs[j] in es
    ensures fs[i].word != fs[j].word
  {
    var p :| 0 <= p < |es| && es[p] == fs[i];
    var q :| 0 <= q < |es| && es[q] == fs[j];
    assert p != q;
  }

  lemma {:induction false} OccurrencesAppend(a: seq<string>, f: string, x: string)
    ensures Occurrences(a + [f], x) == Occurrences(a, x) + FileCount(f, x)
  {
    if a == [] {
      assert (a + [f])[1..] == [];
    } else {
      assert (a + [f])[1..] == a[1..] + [f];
      OccurrencesAppend(a[1..], f, x);
    }
  }

  // ----- Counting one file after another: words and lwords -----

  lemma {:induction false} AddAllFrontCounts(es: seq<Entry>, ws: seq<string>)
    requires Proper(es)
    ensures Proper(AddAllFront(es, ws))
    ensures forall x :: Total(AddAllFront(es, ws), x) == Total(es, x) + multiset(ws)[x]
    decreases |ws|
  {
    hide AddAllFront, AddFront, Proper, Total;
    if ws == [] {
      NoWordsLeft(es);
    } else {
      var w, rest := ws[0], ws[1..];
      assert ws == [w] + rest;
      AddFrontCounts(es, w);
      AddAllFrontCounts(AddFront(es, w), rest);
      AddAllFrontCons(es, w, rest);
      forall x ensures Total(AddAllFront(es, ws), x) == Total(es, x) + multiset(ws)[x] {
        CountCons(w, rest, x);
      }
    }
  }

  lemma {:induction false} AddAllBackCounts(es: seq<Entry>, ws: seq<string>)
    requires Proper(es)
    ensures Proper(AddAllBack(es, ws))
    ensures forall x :: Total(AddAllBack(es, ws), x) == Total(es, x) + multiset(ws)[x]
    decreases |ws|
  {
    hide AddAllBack, AddBack, Proper, Total;
    if ws == [] {
      NoWordsLeftBack(es);
    } else {
      var w, rest := ws[0], ws[1..];
      assert ws == [w] + rest;
      AddBackCounts(es, w, 1);
      AddAllBackCounts(AddBack(es, w, 1), rest);
      AddAllBackCons(es, w, rest);
      forall x ensures Total(AddAllBack(es, ws), x) == Total(es, x) + multiset(ws)[x] {
        CountCons(w, rest, x);
      }
    }
  }

  /** The sum of all counts. */
  ghost function Sum(es: seq<Entry>): int {
    if es == [] then 0 else es[0].count + Sum(es[1..])
  }

  lemma {:induction false} SumAppend(a: seq<Entry>, b: seq<Entry>)
    ensures Sum(a + b) == Sum(a) + Sum(b)
  {
    if a == [] {
      assert a + b == b;
    } else {
      assert (a + b)[1..] == a[1..] + b;
      SumAppend(a[1..], b);
    }
  }

  lemma SumCons(e: Entry, es: seq<Entry>)
    ensures Sum([e] + es) == e.count + Sum(es)
  {
    assert ([e] + es)[1..] == es;
  }

  lemma SumBump(es: seq<Entry>, k: nat, n: int)
    requires k < |es|
    ensures Sum(Bump(es, k, n)) == Sum(es) + n
  {
    hide Sum;
    var e := Entry(es[k].word, es[k].count + n);
    SumAppend(es[..k], [es[k]] + es[k + 1..]);
    SumCons(es[k], es[k + 1..]);
    SumAppend(es[..k], [e] + es[k + 1..]);
    SumCons(e, es[k + 1..]);
    assert es == es[..k] + ([es[k]] + es[k + 1..]);
    assert Bump(es, k, n) == es[..k] + ([e] + es[k + 1..]);
  }

  lemma {:induction false} AddAllFrontSum(es: seq<Entry>, ws: seq<string>)
    ensures Sum(AddAllFront(es, ws)) == Sum(es) + |ws|
    decreases |ws|
  {
    if ws != [] {
      if Find(es, ws[0]) < |es| {
        SumBump(es, Find(es, ws[0]), 1);
      } else {
        SumCons(Entry(ws[0], 1), es);
      }
      AddAllFrontSum(AddFront(es, ws[0]), ws[1..]);
    }
  }

  lemma {:induction false} AddAllBackSum(es: seq<Entry>, ws: seq<string>)
    ensures Sum(AddAllBack(es, ws)) == Sum(es) + |ws|
    decreases |ws|
  {
    if ws != [] {
      if Find(es, ws[0]) < |es| {
        SumBump(es, Find(es, ws[0]), 1);
      } else {
        SumAppend(es, [Entry(ws[0], 1)]);
        assert [Entry(ws[0], 1)][1..] == [];
      }
      AddAllBackSum(AddBack(es, ws[0], 1), ws[1..]);
    }
  }

  /** Counting a file raises the counts, together, by the number of its runs of
      two letters or more, in either list. */
  lemma FileSum(es: seq<Entry>, file: string)
    ensures Sum(AddAllFront(es, WordsOf(file))) == Sum(es) + |LongStarts(file, 0)|
    ensures Sum(AddAllBack(es, WordsOf(file))) == Sum(es) + |LongStarts(file, 0)|
  {
    hide WordsOf, AddAllFront, AddAllBack;
    WordsOfNumber(file);
    AddAllFrontSum(es, WordsOf(file));
    AddAllBackSum(es, WordsOf(file));
  }

  lemma NothingCounted()
    ensures CountsOf([], [])
  {}

  lemma FileCountedFront(es: seq<Entry>, files: seq<string>, f: string)
    requires CountsOf(es, files)
    ensures CountsOf(AddAllFront(es, WordsOf(f)), files + [f])
  {
    AddAllFrontCounts(es, WordsOf(f));
    hide Total, AddAllFront, Proper, WordsOf;
    forall x ensures Total(AddAllFront(es, WordsOf(f)), x) == Occurrences(files + [f], x) {
      WordsOfArePlaces(f, x);
      OccurrencesAppend(files, f, x);
    }
  }

  lemma FileCountedBack(es: seq<Entry>, files: seq<string>, f: string)
    requires CountsOf(es, files)
    ensures CountsOf(AddAllBack(es, WordsOf(f)), files + [f])
  {
    AddAllBackCounts(es, WordsOf(f));
    hide Total, AddAllBack, Proper, WordsOf;
    forall x ensures Total(AddAllBack(es, WordsOf(f)), x) == Occurrences(files + [f], x) {
      WordsOfArePlaces(f, x);
      OccurrencesAppend(files, f, x);
    }
  }

  // ----- Counting by interleaved threads: pwords -----

  /** The shared list, and the words that each thread has still to add. */
  datatype State = State(words: seq<Entry>, todo: seq<seq<string>>)

  ghost function Start(files: seq<string>): State {
    State([], Todo(files))
  }

  ghost function Todo(files: seq<string>): (todo: seq<seq<string>>)
    ensures |todo| == |files| && forall i :: 0 <= i < |files| ==> todo[i] == WordsOf(files[i])
  {
    if files == [] then [] else [WordsOf(files[0])] + Todo(files[1..])
  }

  /** Thread i can take a step while it has words left. */
  ghost predicate CanStep(s: State, i: nat) {
    i < |s.todo| && s.todo[i] != []
  }

  /** One add_word, under the lock. */
  ghost function Step(s: State, i: nat): State
    requires CanStep(s, i)
  {
    State(AddBack(s.words, s.todo[i][0], 1), s.todo[i := s.todo[i][1..]])
  }

  ghost predicate Possible(s: State, schedule: seq<nat>)
    decreases |schedule|
  {
    schedule == [] || (CanStep(s, schedule[0]) && Possible(Step(s, schedule[0]), schedule[1..]))
  }

  ghost function After(s: State, schedule: seq<nat>): State
    requires Possible(s, schedule)
    decreases |schedule|
  {
    if schedule == [] then s else After(Step(s, schedule[0]), schedule[1..])
  }

  /** All threads have been joined. */
  ghost predicate Finished(s: State) {
    forall i :: 0 <= i < |s.todo| ==> s.todo[i] == []
  }

  /** How often x is still to be added. */
  ghost function Waiting(todo: seq<seq<string>>, x: string): nat {
    if todo == [] then 0 else multiset(todo[0])[x] + Waiting(todo[1..], x)
  }

  ghost function Left(todo: seq<seq<string>>): nat {
    if todo == [] then 0 else |todo[0]| + Left(todo[1..])
  }

  /** What is counted and what is waiting make up the files, at every moment. */
  ghost predicate Balanced(s: State, files: seq<string>) {
    Proper(s.words) && forall x :: Total(s.words, x) + Waiting(s.todo, x) == Occurrences(files, x)
  }

  lemma {:induction false} WaitingStart(files: seq<string>, x: string)
    ensures Waiting(Todo(files), x) == Occurrences(files, x)
  {
    if files != [] {
      assert Todo(files)[1..] == Todo(files[1..]);
      WordsOfArePlaces(files[0], x);
      WaitingStart(files[1..], x);
    }
  }

  lemma {:induction false} WaitingStep(todo: seq<seq<string>>, i: nat, x: string)
    requires i < |todo| && todo[i] != []
    ensures Waiting(todo, x) == Waiting(todo[i := todo[i][1..]], x) + if todo[i][0] == x then 1 else 0
    ensures Left(todo) == Left(todo[i := todo[i][1..]]) + 1
  {
    if i == 0 {
      assert todo[0] == [todo[0][0]] + todo[0][1..];
      assert todo[0 := todo[0][1..]][1..] == todo[1..];
    } else {
      WaitingStep(todo[1..], i - 1, x);
      assert todo[i := todo[i][1..]][1..] == todo[1..][i - 1 := todo[i][1..]];
    }
  }

  lemma {:induction false} NoneWaiting(todo: seq<seq<string>>, x: string)
    requires forall i :: 0 <= i < |todo| ==> todo[i] == []
    ensures Waiting(todo, x) == 0
  {
    if todo != [] {
      NoneWaiting(todo[1..], x);
    }
  }

  lemma StepBalanced(s: State, i: nat, files: seq<string>)
    requires Balanced(s, files) && CanStep(s, i)
    ensures Balanced(Step(s, i), files)
  {
    AddBackCounts(s.words, s.todo[i][0], 1);
    hide Proper, Total, AddBack, Waiting;
    forall x ensures Total(Step(s, i).words, x) + Waiting(Step(s, i).todo, x) == Occurrences(files, x) {
      WaitingStep(s.todo, i, x);
    }
  }

  lemma {:induction false} RunBalanced(s: State, schedule: seq<nat>, files: seq<string>)
    requires Balanced(s, files) && Possible(s, schedule)
    ensures Balanced(After(s, schedule), files)
    ensures |schedule| + Left(After(s, schedule).todo) == Left(s.todo)
    decreases |schedule|
  {
    hide Balanced, Left;
    if schedule != [] {
      StepBalanced(s, schedule[0], files);
      WaitingStep(s.todo, schedule[0], "");
      RunBalanced(Step(s, schedule[0]), schedule[1..], files);
    }
  }

  lemma {:induction false} NoneLeft(todo: seq<seq<string>>)
    ensures Left(todo) == 0 <==> forall i :: 0 <= i < |todo| ==> todo[i] == []
  {
    if todo != [] {
      NoneLeft(todo[1..]);
      assert forall i :: 0 < i < |todo| ==> todo[i] == todo[1..][i - 1];
    }
  }

  /** However the threads interleave, at any moment the list counts what has
      been added and nothing else; the run is over after exactly as many steps
      as there are words, and then the list counts the files. */
  lemma ThreadsCount(files: seq<string>, schedule: seq<nat>)
    requires Possible(Start(files), schedule)
    ensures Balanced(After(Start(files), schedule), files)
    ensures Finished(After(Start(files), schedule)) <==> |schedule| == Left(Todo(files))
    ensures Finished(After(Start(files), schedule)) ==> CountsOf(After(Start(files), schedule).words, files)
  {
    hide Left, Waiting, Occurrences, Total;
    var s := After(Start(files), schedule);
    forall x ensures Total([], x) + Waiting(Todo(files), x) == Occurrences(files, x) {
      WaitingStart(files, x);
      NoTotal(x);
    }
    RunBalanced(Start(files), schedule, files);
    NoneLeft(s.todo);
    if Finished(s) {
      forall x ensures Total(s.words, x) == Occurrences(files, x) {
        NoneWaiting(s.todo, x);
      }
    }
  }

  lemma NoTotal(x: string)
    ensures Total([], x) == 0
  {}

  /** Any two schedules of the threads end with the same sorted list. */
  lemma ScheduleIndependence(files: seq<string>, one: seq<nat>, other: seq<nat>)
    requires Possible(Start(files), one) && Finished(After(Start(files), one))
    requires Possible(Start(files), other) && Finished(After(Start(files), other))
    ensures Listing(After(Start(files), one).words) == Listing(After(Start(files), other).words)
  {
    hide After, Possible, Finished, Listing, Total, Proper;
    ThreadsCount(files, one);
    ThreadsCount(files, other);
    ListingOfTotals(After(Start(files), one).words, After(Start(files), other).words);
  }

  // ----- Counting by processes that print: fwords -----

  /** The list a child process prints. */
  ghost function ChildList(file: string): seq<Entry> {
    AddAllBack([], WordsOf(file))
  }

  lemma {:induction false} AddAllBackLower(es: seq<Entry>, ws: seq<string>)
    requires LowerWords(es) && forall w :: w in ws ==> LowerWord(w)
    ensures LowerWords(AddAllBack(es, ws))
    decreases |ws|
  {
    hide LowerWord;
    if ws != [] {
      AddAllBackLower(AddBack(es, ws[0], 1), ws[1..]);
    }
  }

  lemma ChildCounts(file: string)
    ensures CountsOf(ChildList(file), [file]) && LowerWords(ChildList(file)) && Proper(ChildList(file))
    ensures forall x :: Total(ChildList(file), x) == FileCount(file, x)
  {
    WordsOfLower(file);
    AddAllBackLower([], WordsOf(file));
    hide WordsOf, LowerWord, AddAllBack, Total;
    NothingCounted();
    FileCountedBack([], [], file);
    assert [] + [file] == [file];
    assert forall x :: Occurrences([file], x) == FileCount(file, x) + Occurrences([file][1..], x);
  }

  lemma {:induction false} SomeEntry(es: seq<Entry>, x: string) returns (i: nat)
    requires Total(es, x) != 0
    ensures i < |es| && es[i].word == x
  {
    if es[0].word == x {
      i := 0;
    } else {
      i := SomeEntry(es[1..], x);
      i := i + 1;
    }
  }

  /** Every count fits the field exactly when every total does. */
  lemma FitsTotals(es: seq<Entry>)
    requires Proper(es)
    ensures Fits(es) <==> forall x :: Total(es, x) < Power10(8)
  {
    hide Total, Power10;
    TenAtLeast(8);
    forall i | 0 <= i < |es| ensures Total(es, es[i].word) == es[i].count {
      TotalOfMember(es, es[i]);
      assert es[i] in multiset(es);
    }
    if Fits(es) {
      forall x ensures Total(es, x) < Power10(8) {
        if Total(es, x) != 0 {
          var i := SomeEntry(es, x);
        }
      }
    } else {
      var i :| 0 <= i < |es| && es[i].count >= Power10(8);
      assert Total(es, es[i].word) >= Power10(8);
    }
  }

  /** No word occurs 100000000 times or more in any one file. */
  ghost predicate AllFit(files: seq<string>) {
    forall f, x :: f in files ==> FileCount(f, x) < Power10(8)
  }

  /** The parent's list after merging what the children printed, file by file. */
  ghost function Merged(files: seq<string>): seq<Entry> {
    if files == [] then []
    else
      var n := |files| - 1;
      MergeText(Merged(files[..n]), Print(ChildList(files[n]))).0
  }

  lemma {:induction false} MergedRight(files: seq<string>)
    requires AllFit(files)
    ensures CountsOf(Merged(files), files)
  {
    hide Power10, Total, Proper, FileCount, MergeText, ChildList, Print, AddEntries, LowerWords;
    if files != [] {
      var n := |files| - 1;
      var f := files[n];
      MergedRight(files[..n]);
      ChildCounts(f);
      FitsTotals(ChildList(f));
      PrintMergeRoundTrip(Merged(files[..n]), ChildList(f));
      AddEntriesGrow(Merged(files[..n]), ChildList(f));
      assert files == files[..n] + [f];
      forall x ensures Total(Merged(files), x) == Occurrences(files, x) {
        OccurrencesAppend(files[..n], f, x);
      }
    } else {
      NothingCounted();
    }
  }

  lemma AddEntriesGrow(acc: seq<Entry>, es: seq<Entry>)
    requires Proper(acc) && Proper(es)
    ensures Proper(AddEntries(acc, es))
    ensures forall x :: Total(AddEntries(acc, es), x) == Total(acc, x) + Total(es, x) >= Total(acc, x)
  {
    AddEntriesCounts(acc, es);
    forall x ensures Total(es, x) >= 0 {
      TotalOfMember(es, Entry(x, 0));
    }
  }

  /** A word of digits on the list. */
  ghost predicate HasDigits(es: seq<Entry>) {
    exists x: string :: Total(es, x) > 0 && x != [] && Digit(x[0])
  }

  /** Merging one more child's text, fit or not, keeps the list proper and does
      not lower any total. */
  lemma MergeGrows(acc: seq<Entry>, es: seq<Entry>)
    requires Proper(acc) && Proper(es) && LowerWords(es)
    ensures Proper(MergeText(acc, Print(es)).0)
    ensures forall y :: Total(MergeText(acc, Print(es)).0, y) >= Total(acc, y)
    ensures !Fits(es) ==> HasDigits(MergeText(acc, Print(es)).0)
  {
    hide Power10, Total, Proper, MergeText, Print, AddEntries, LowerWords;
    if Fits(es) {
      PrintMergeRoundTrip(acc, es);
      AddEntriesGrow(acc, es);
    } else {
      var x := MergeMiscounts(acc, es);
      TotalNonNegative(acc, x);
    }
  }

  lemma TotalNonNegative(es: seq<Entry>, x: string)
    requires Proper(es)
    ensures Total(es, x) >= 0
  {
    TotalOfMember(es, Entry(x, 0));
  }

  lemma {:induction false} MergedWrong(files: seq<string>)
    ensures Proper(Merged(files))
    ensures !AllFit(files) ==> HasDigits(Merged(files))
  {
    hide Power10, Total, Proper, FileCount, MergeText, ChildList, Print, LowerWords, Fits;
    if files != [] {
      var n := |files| - 1;
      var f := files[n];
      MergedWrong(files[..n]);
      ChildCounts(f);
      FitsTotals(ChildList(f));
      MergeGrows(Merged(files[..n]), ChildList(f));
      if !AllFit(files[..n]) {
        var x: string :| Total(Merged(files[..n]), x) > 0 && x != [] && Digit(x[0]);
        assert Total(Merged(files), x) > 0;
      } else if !AllFit(files) {
        assert files == files[..n] + [f];
        var x :| FileCount(f, x) >= Power10(8);
        assert Total(ChildList(f), x) >= Power10(8);
      }
    } else {
      NothingProper();
    }
  }

  lemma NothingProper()
    ensures Proper([])
  {}

  // ----- The printed text shows whether a word starts with a digit -----

  /** Every tab is followed by a letter. */
  ghost predicate LettersAfterTabs(s: string) {
    forall i :: 0 <= i < |s| && s[i] == '\t' ==> i + 1 < |s| && 'a' <= s[i + 1] <= 'z'
  }

  lemma {:induction false} PrintedLetters(es: seq<Entry>)
    requires LowerWords(es) && Proper(es)
    ensures LettersAfterTabs(Print(es))
  {
    hide Field;
    if es != [] {
      PrintedLetters(es[1..]);
      FieldHasNoTab(es[0].count);
    }
  }

  lemma FieldHasNoTab(n: nat)
    ensures forall i :: 0 <= i < |Field(n)| ==> Field(n)[i] != '\t'
  {
    if |Dec(n)| < 8 {
      SpacesAreSpaces(8 - |Dec(n)|);
    }
  }

  lemma PrintedDigit(es: seq<Entry>, k: nat)
    requires Proper(es) && k < |es| && es[k].word != [] && Digit(es[k].word[0])
    ensures !LettersAfterTabs(Print(es))
  {
    hide Field, Print;
    var a, e, b := es[..k], es[k], es[k + 1..];
    assert es == a + [e] + b;
    PrintAround(a, e, b);
    var i := |Print(a)| + |Field(e.count)|;
    assert Print(es)[i] == '\t' && Print(es)[i + 1] == e.word[0];
  }

  lemma NoDigitsOccur(files: seq<string>, x: string)
    requires Occurrences(files, x) > 0
    ensures LowerWord(x)
  {
    if FileCount(files[0], x) > 0 {
      WordsOfArePlaces(files[0], x);
      WordsOfLower(files[0]);
      assert x in WordsOf(files[0]);
    } else {
      NoDigitsOccur(files[1..], x);
    }
  }

  lemma ReportLetters(out: string, files: seq<string>)
    requires IsReport(out, files)
    ensures LettersAfterTabs(out)
  {
    hide IsReport, Print, LettersAfterTabs, Total, LowerWord, Sorted, Occurrences;
    var es := ReportFrom(out, files);
    forall i | 0 <= i < |es| ensures LowerWord(es[i].word) {
      TotalOfMember(es, es[i]);
      assert es[i] in multiset(es);
      NoDigitsOccur(files, es[i].word);
    }
    PrintedLetters(es);
  }

  /** fwords prints the report exactly when no word occurs 100000000 times or
      more in any one file, whatever the files add up to. */
  lemma FwordsReports(files: seq<string>, fs: seq<Entry>)
    requires Sorted(ByCount(), fs) && multiset(fs) == multiset(Merged(files))
    ensures Proper(fs)
    ensures IsReport(Print(fs), files) <==> AllFit(files)
  {
    hide IsReport, Print, LettersAfterTabs, Total, Sorted, Merged;
    MergedWrong(files);
    SameEntriesSameTotals(Merged(files), fs);
    if AllFit(files) {
      MergedRight(files);
      SortedIsReport(Merged(files), fs, files);
    } else {
      var x: string :| Total(Merged(files), x) > 0 && x != [] && Digit(x[0]);
      var k := SomeEntry(fs, x);
      PrintedDigit(fs, k);
      if IsReport(Print(fs), files) {
        ReportLetters(Print(fs), files);
      }
    }
  }

  // ----- Such files exist -----

  /** A text of n words. */
  function Times(n: nat): (s: string)
    ensures |s| == 3 * n
    ensures forall k :: 0 <= k < n ==> s[3 * k] == 'a' && s[3 * k + 1] == 'a' && s[3 * k + 2] == ' '
  {
    if n == 0 then "" else Times(n - 1) + "aa "
  }

  lemma {:induction false} TimesStretches(n: nat, k: nat)
    requires k <= n
    ensures multiset(Stretches(Times(n), 3 * k))["aa"] == n - k
    decreases n - k
  {
    hide Times;
    if k < n {
      var s, p := Times(n), 3 * k;
      TimesStretches(n, k + 1);
      assert StretchEnd(s, p) == p + 2 by {
        assert Alpha(s[p]) && Alpha(s[p + 1]) && s[3 * k + 2] == ' ';
        assert StretchEnd(s, p) == StretchEnd(s, p + 1) == StretchEnd(s, p + 2);
      }
      assert Lower(s[p..p + 2]) == "aa";
      assert Stretches(s, p + 2) == Stretches(s, p + 3) && p + 3 == 3 * (k + 1);
      CountCons("aa", Stretches(s, p + 3), "aa");
    }
  }

  lemma TimesCount(n: nat)
    ensures FileCount(Times(n), "aa") == n
  {
    TimesStretches(n, 0);
    StretchesArePlaces(Times(n), 0, "aa");
  }

  /** On one file in which a word occurs 100000000 times or more fwords does not
      print the report, whatever sorts its list. */
  lemma FwordsFails(n: nat, fs: seq<Entry>)
    requires n >= Power10(8)
    requires Sorted(ByCount(), fs) && multiset(fs) == multiset(Merged([Times(n)]))
    ensures Proper(fs) && !IsReport(Print(fs), [Times(n)])
  {
    hide Power10, FileCount, Times, Merged, Print, IsReport, Sorted;
    TimesCount(n);
    var files := [Times(n)];
    assert Times(n) in files && FileCount(Times(n), "aa") >= Power10(8);
    assert !AllFit(files);
    FwordsReports(files, fs);
  }

  /** There is such a list, and so a run that prints something else. */
  lemma FwordsFailsSomewhere() returns (files: seq<string>, fs: seq<Entry>)
    ensures !AllFit(files) && Sorted(ByCount(), fs) && multiset(fs) == multiset(Merged(files))
    ensures Proper(fs) && !IsReport(Print(fs), files)
  {
    hide Power10, FileCount, Times, Merged, Print, IsReport, Sorted;
    var n := Power10(8);
    files, fs := [Times(n)], Listing(Merged([Times(n)]));
    LessCountStrictTotal();
    InsertionSortCorrect(ByCount(), Merged(files));
    StableIsPermutation(ByCount(), Merged(files), fs);
    FwordsFails(n, fs);
    TimesCount(n);
    assert Times(n) in files;
  }
}
