/** The SCAN_RESULTS table: lines to entries, sorted by signal. */
module ScanTable {
  import opened Wrappers
  import opened Text
  import opened Escape

  datatype ScanResult = ScanResult(mac: string, frequency: string, signal: int, flags: string, name: string)

  // ------ The parser ----------------------------

  /** `ScanResult::from_line` */
  function FromLine(line: string): Option<ScanResult> {
    match SplitOnce(line, '\t')
    case None => None
    case Some((mac, rest)) =>
      match SplitOnce(rest, '\t')
      case None => None
      case Some((frequency, rest)) =>
        match SplitOnce(rest, '\t')
        case None => None
        case Some((signal, rest)) =>
          match ParseIsize(signal)
          case None => None
          case Some(n) =>
            match SplitOnce(rest, '\t')
            case None => None
            case Some((flags, escaped)) =>
              match Unprintf(escaped)
              case Err(_) => None
              case Ok(name) => Some(ScanResult(mac, frequency, n, flags, name))
  }

  /** The values that are there, in order. */
  function Somes(os: seq<Option<ScanResult>>): seq<ScanResult> {
    if os == [] then []
    else
      var r := os[|os| - 1];
      Somes(os[..|os| - 1]) + (if r.Some? then [r.value] else [])
  }

  /** The entries of the lines that parse, in line order. */
  function Parseable(lines: seq<string>): seq<ScanResult> {
    Somes(Map(FromLine, lines))
  }

  function Body(response: string): seq<string> {
    var lines := Lines(response);
    if lines == [] then [] else lines[1..]
  }

  /** Inserted after every entry whose signal is not larger. */
  function Insert(x: ScanResult, sorted: seq<ScanResult>): seq<ScanResult> {
    if sorted == [] || sorted[|sorted| - 1].signal <= x.signal then sorted + [x]
    else Insert(x, sorted[..|sorted| - 1]) + [sorted[|sorted| - 1]]
  }

  /** A stable sort by signal, as `sort_by_key` promises. */
  function SortBySignal(rs: seq<ScanResult>): seq<ScanResult> {
    if rs == [] then [] else Insert(rs[|rs| - 1], SortBySignal(rs[..|rs| - 1]))
  }

  /** `ScanResult::vec_from_str`, which never fails. */
  function VecFromStr(response: string): seq<ScanResult> {
    SortBySignal(Parseable(Body(response)))
  }

  /** The push loop, then the sort. */
  method CollectResults(response: string) returns (results: seq<ScanResult>)
    ensures results == VecFromStr(response)
  {
    results := [];
    var lines := Body(response);
    ghost var os := Map(FromLine, lines);
    for n := 0 to |lines|
      invariant results == Somes(os[..n])
    {
      assert os[..n + 1][..n] == os[..n];
      var r := FromLine(lines[n]);
      if r.Some? {
        results := results + [r.value];
      }
    }
    assert os[..|lines|] == os;
    results := SortBySignal(results);
  }

  // ------ The stable sort is the only one ----------------------------

  predicate Sorted(rs: seq<ScanResult>) {
    forall i, j | 0 <= i < j < |rs| :: rs[i].signal <= rs[j].signal
  }

  /** The entries of one signal strength, in order. */
  function OfSignal(rs: seq<ScanResult>, v: int): seq<ScanResult> {
    if rs == [] then []
    else OfSignal(rs[..|rs| - 1], v) + (if rs[|rs| - 1].signal == v then [rs[|rs| - 1]] else [])
  }

  /** Sorted, with the same entries of every signal strength in the same order. */
  ghost predicate StableSortOf(sorted: seq<ScanResult>, rs: seq<ScanResult>) {
    Sorted(sorted) && forall v :: OfSignal(sorted, v) == OfSignal(rs, v)
  }

  lemma OfSignalSnoc(rs: seq<ScanResult>, x: ScanResult, v: int)
    ensures OfSignal(rs + [x], v) == OfSignal(rs, v) + (if x.signal == v then [x] else [])
  {
  }

  lemma {:induction false} InsertMultiset(x: ScanResult, sorted: seq<ScanResult>)
    ensures multiset(Insert(x, sorted)) == multiset(sorted) + multiset{x}
  {
    if sorted != [] && x.signal < sorted[|sorted| - 1].signal {
      assert sorted == sorted[..|sorted| - 1] + [sorted[|sorted| - 1]];
      InsertMultiset(x, sorted[..|sorted| - 1]);
    }
  }

  lemma InsertMember(x: ScanResult, sorted: seq<ScanResult>, r: ScanResult)
    requires r in Insert(x, sorted)
    ensures r == x || r in sorted
  {
  }

  lemma {:induction false} InsertSorted(x: ScanResult, sorted: seq<ScanResult>)
    requires Sorted(sorted)
    ensures Sorted(Insert(x, sorted))
  {
    if sorted != [] && x.signal < sorted[|sorted| - 1].signal {
      var (init, last) := (sorted[..|sorted| - 1], sorted[|sorted| - 1]);
      InsertSorted(x, init);
      forall r <- Insert(x, init) ensures r.signal <= last.signal {
        InsertMember(x, init, r);
      }
    }
  }

  /** Two entries of different signals are not both of one. */
  lemma NotBoth(group: seq<ScanResult>, x: ScanResult, y: ScanResult, v: int)
    requires x.signal != y.signal
    ensures var (a, b) := (if x.signal == v then [x] else [], if y.signal == v then [y] else []);
      group + a + b == group + b + a
  {
  }

  lemma {:induction false} InsertOfSignal(x: ScanResult, sorted: seq<ScanResult>, v: int)
    requires Sorted(sorted)
    ensures OfSignal(Insert(x, sorted), v) == OfSignal(sorted, v) + (if x.signal == v then [x] else [])
  {
    hide OfSignal;
    if sorted == [] || sorted[|sorted| - 1].signal <= x.signal {
      OfSignalSnoc(sorted, x, v);
    } else {
      var (init, last) := (sorted[..|sorted| - 1], sorted[|sorted| - 1]);
      InsertOfSignal(x, init, v);
      OfSignalSnoc(Insert(x, init), last, v);
      OfSignalSnoc(init, last, v);
      NotBoth(OfSignal(init, v), x, last, v);
      assert sorted == init + [last];
    }
  }

  lemma {:induction false} SortIsStable(rs: seq<ScanResult>)
    ensures StableSortOf(SortBySignal(rs), rs)
    ensures multiset(SortBySignal(rs)) == multiset(rs)
  {
    if rs != [] {
      var (init, last) := (rs[..|rs| - 1], rs[|rs| - 1]);
      assert rs == init + [last];
      SortIsStable(init);
      InsertSorted(last, SortBySignal(init));
      InsertMultiset(last, SortBySignal(init));
      forall v ensures OfSignal(SortBySignal(rs), v) == OfSignal(rs, v) {
        InsertOfSignal(last, SortBySignal(init), v);
      }
    }
  }

  lemma OfSignalLast(rs: seq<ScanResult>)
    requires rs != []
    ensures var g := OfSignal(rs, rs[|rs| - 1].signal); g != [] && g[|g| - 1] == rs[|rs| - 1]
  {
  }

  lemma AboveLast(rs: seq<ScanResult>, v: int)
    requires Sorted(rs) && (rs != [] ==> rs[|rs| - 1].signal < v)
    ensures OfSignal(rs, v) == []
  {
  }

  /** The last entry of a sorted table ends its signal group, the largest. */
  lemma LastGroup(a: seq<ScanResult>, b: seq<ScanResult>)
    requires a != [] && Sorted(a) && Sorted(b)
    requires OfSignal(a, a[|a| - 1].signal) == OfSignal(b, a[|a| - 1].signal)
    requires b != [] ==> OfSignal(a, b[|b| - 1].signal) == OfSignal(b, b[|b| - 1].signal)
    ensures b != [] && a[|a| - 1] == b[|b| - 1]
  {
    var x := a[|a| - 1];
    OfSignalLast(a);
    if b == [] || b[|b| - 1].signal < x.signal {
      AboveLast(b, x.signal);
    } else {
      OfSignalLast(b);
      if x.signal < b[|b| - 1].signal {
        AboveLast(a, b[|b| - 1].signal);
      }
    }
  }

  lemma Cancel(x: seq<ScanResult>, y: seq<ScanResult>, tail: seq<ScanResult>)
    requires x + tail == y + tail
    ensures x == y
  {
    assert |x + tail| == |x| + |tail| && |y + tail| == |y| + |tail|;
    assert x == (x + tail)[..|x|] && y == (y + tail)[..|x|];
  }

  lemma SameInit(a: seq<ScanResult>, b: seq<ScanResult>, v: int)
    requires a != [] && b != [] && a[|a| - 1] == b[|b| - 1] && OfSignal(a, v) == OfSignal(b, v)
    ensures OfSignal(a[..|a| - 1], v) == OfSignal(b[..|b| - 1], v)
  {
    var last := a[|a| - 1];
    Cancel(OfSignal(a[..|a| - 1], v), OfSignal(b[..|b| - 1], v), if last.signal == v then [last] else []);
  }

  /** Two stable sorts of the same table are equal. */
  lemma {:induction false} StableSortUnique(a: seq<ScanResult>, b: seq<ScanResult>)
    requires Sorted(a) && Sorted(b) && forall v :: OfSignal(a, v) == OfSignal(b, v)
    ensures a == b
  {
    hide OfSignal;
    if a == [] {
      if b != [] {
        LastGroup(b, a);
      }
    } else {
      LastGroup(a, b);
      var (a', b') := (a[..|a| - 1], b[..|b| - 1]);
      forall v ensures OfSignal(a', v) == OfSignal(b', v) {
        SameInit(a, b, v);
      }
      StableSortUnique(a', b');
      assert a == a[..|a| - 1] + [a[|a| - 1]] && b == b[..|b| - 1] + [b[|b| - 1]];
    }
  }

  /** The result is the one stable ascending sort of the parseable body lines. */
  lemma ScanIsStableSort(response: string, rs: seq<ScanResult>)
    ensures rs == VecFromStr(response) <==> StableSortOf(rs, Parseable(Body(response)))
    ensures multiset(VecFromStr(response)) == multiset(Parseable(Body(response)))
  {
    var entries := Parseable(Body(response));
    SortIsStable(entries);
    if StableSortOf(rs, entries) {
      assert forall v :: OfSignal(rs, v) == OfSignal(SortBySignal(entries), v);
      StableSortUnique(rs, SortBySignal(entries));
    }
  }

  lemma {:induction false} SomesAppend(a: seq<Option<ScanResult>>, b: seq<Option<ScanResult>>)
    ensures Somes(a + b) == Somes(a) + Somes(b)
  {
    if b == [] {
      assert a + b == a;
    } else {
      assert (a + b)[..|a + b| - 1] == a + b[..|b| - 1];
      SomesAppend(a, b[..|b| - 1]);
    }
  }

  lemma ParseableAppend(a: seq<string>, b: seq<string>)
    ensures Parseable(a + b) == Parseable(a) + Parseable(b)
  {
    SomesAppend(Map(FromLine, a), Map(FromLine, b));
    MapAppend(FromLine, a, b);
  }

  lemma ParseableOne(line: string)
    ensures Parseable([line]) == match FromLine(line) case None => [] case Some(r) => [r]
  {
    assert Map(FromLine, [line]) == [FromLine(line)];
    assert Somes([]) == [];
  }

  lemma SkipLine(a: seq<string>, odd: string, b: seq<string>)
    requires Parseable([odd]) == []
    ensures Parseable(a + [odd] + b) == Parseable(a + b)
  {
    ParseableAppend(a + [odd], b);
    ParseableAppend(a, [odd]);
    ParseableAppend(a, b);
  }

  /** A body line that does not parse changes nothing, wherever it stands. */
  lemma OddLineIgnored(header: string, a: seq<string>, odd: string, b: seq<string>)
    requires CleanLine(header) && CleanLines(a) && CleanLine(odd) && CleanLines(b) && FromLine(odd).None?
    ensures VecFromStr(Terminated([header] + (a + [odd] + b))) == VecFromStr(Terminated([header] + (a + b)))
  {
    ParseableOne(odd);
    SkipLine(a, odd, b);
    BodyOfTerminated(header, a + [odd] + b);
    BodyOfTerminated(header, a + b);
  }

  lemma BodyOfTerminated(header: string, lines: seq<string>)
    requires CleanLine(header) && CleanLines(lines)
    ensures Body(Terminated([header] + lines)) == lines
  {
    LinesOfTerminated([header] + lines, "");
    assert Terminated([header] + lines) + "" == Terminated([header] + lines);
    assert ([header] + lines)[1..] == lines;
  }

  // ------ Which lines are entries ----------------------------

  /** Five columns separated by tabs, the last of which is the rest of the line: address, frequency, a signed number,
      flags, and a name that decodes. */
  ghost predicate IsEntry(line: string, r: ScanResult) {
    exists signal, name ::
      && line == r.mac + "\t" + (r.frequency + "\t" + (signal + "\t" + (r.flags + "\t" + name)))
      && '\t' !in r.mac && '\t' !in r.frequency && '\t' !in signal && '\t' !in r.flags
      && SpellsSigned(signal, r.signal) && Unprintf(name) == Ok(r.name)
  }

  /** A body line is an entry exactly when it has this form; it holds its columns in their order. */
  lemma EntryExactly(line: string, r: ScanResult)
    ensures FromLine(line) == Some(r) <==> IsEntry(line, r)
  {
    if IsEntry(line, r) {
      ShownIsRead(line, r);
    }
    if FromLine(line) == Some(r) {
      ReadIsShown(line, r);
    }
  }

  lemma ShownIsRead(line: string, r: ScanResult)
    requires IsEntry(line, r)
    ensures FromLine(line) == Some(r)
  {
    hide ParseIsize, SpellsSigned, Unprintf, SplitOnce;
    var signal, name :|
      && line == r.mac + "\t" + (r.frequency + "\t" + (signal + "\t" + (r.flags + "\t" + name)))
      && '\t' !in r.mac && '\t' !in r.frequency && '\t' !in signal && '\t' !in r.flags
      && SpellsSigned(signal, r.signal) && Unprintf(name) == Ok(r.name);
    SplitOnceAt(r.mac, '\t', r.frequency + "\t" + (signal + "\t" + (r.flags + "\t" + name)));
    SplitOnceAt(r.frequency, '\t', signal + "\t" + (r.flags + "\t" + name));
    SplitOnceAt(signal, '\t', r.flags + "\t" + name);
    SplitOnceAt(r.flags, '\t', name);
    SignedExactly(signal, r.signal);
  }

  lemma ReadIsShown(line: string, r: ScanResult)
    requires FromLine(line) == Some(r)
    ensures IsEntry(line, r)
  {
    hide ParseIsize, SpellsSigned, Unprintf, SplitOnce;
    var (mac, rest1) := SplitOnce(line, '\t').value;
    var (frequency, rest2) := SplitOnce(rest1, '\t').value;
    var (signal, rest3) := SplitOnce(rest2, '\t').value;
    var (flags, name) := SplitOnce(rest3, '\t').value;
    SplitOnceInverse(line, '\t');
    SplitOnceInverse(rest1, '\t');
    SplitOnceInverse(rest2, '\t');
    SplitOnceInverse(rest3, '\t');
    SignedExactly(signal, r.signal);
    assert line == mac + "\t" + (frequency + "\t" + (signal + "\t" + (flags + "\t" + name)));
  }

  // ------ Writing a table ----------------------------

  predicate Column(s: string) {
    '\t' !in s && '\n' !in s
  }

  predicate Writable(r: ScanResult) {
    Column(r.mac) && Column(r.frequency) && Column(r.flags) && -(ISIZE_MAX as int) - 1 <= r.signal <= ISIZE_MAX
  }

  function ScanLine(r: ScanResult): string {
    r.mac + "\t" + (r.frequency + "\t" + (SignedDecimal(r.signal) + "\t" + (r.flags + "\t" + PrintfEncode(r.name))))
  }

  function ScanLines(rs: seq<ScanResult>): (lines: seq<string>)
    ensures |lines| == |rs|
  {
    seq(|rs|, i requires 0 <= i < |rs| => ScanLine(rs[i]))
  }

  lemma ScanLineParses(r: ScanResult)
    requires Writable(r)
    ensures FromLine(ScanLine(r)) == Some(r)
  {
    var name := PrintfEncode(r.name);
    var rest3 := r.flags + "\t" + name;
    var rest2 := SignedDecimal(r.signal) + "\t" + rest3;
    var rest1 := r.frequency + "\t" + rest2;
    SplitOnceAt(r.mac, '\t', rest1);
    SplitOnceAt(r.frequency, '\t', rest2);
    ParseSignedDecimal(r.signal);
    SplitOnceAt(SignedDecimal(r.signal), '\t', rest3);
    SplitOnceAt(r.flags, '\t', name);
    RoundTrip(r.name);
  }

  /** A written line ends in a tab or in a printable character, even when the name is empty. */
  lemma ScanLineClean(r: ScanResult)
    requires Writable(r)
    ensures CleanLine(ScanLine(r)) && ScanLine(r) != "" && ScanLine(r)[|ScanLine(r)| - 1] != '\n'
  {
    hide PrintfEncode, SignedDecimal, CleanLine;
    var name := PrintfEncode(r.name);
    ParseSignedDecimal(r.signal);
    var signal := SignedDecimal(r.signal);
    assert '\n' !in signal;
    NameClean(name);
    var front := r.mac + "\t" + r.frequency + "\t" + signal + "\t" + r.flags + "\t";
    assert ScanLine(r) == front + name;
    NameEnds(front, name);
  }

  lemma NameClean(name: string)
    requires Printable(name)
    ensures '\n' !in name && (name != "" ==> ' ' <= name[|name| - 1] <= '~')
  {
    if name != "" {
      assert name[|name| - 1] in name;
    }
  }

  lemma NameEnds(front: string, name: string)
    requires '\n' !in front && '\n' !in name && front != "" && front[|front| - 1] == '\t'
    requires name != "" ==> ' ' <= name[|name| - 1] <= '~'
    ensures var line := front + name; CleanLine(line) && line != "" && line[|line| - 1] != '\n'
  {
  }

  lemma {:induction false} AllThere(os: seq<Option<ScanResult>>, rs: seq<ScanResult>)
    requires |os| == |rs| && forall i | 0 <= i < |rs| :: os[i] == Some(rs[i])
    ensures Somes(os) == rs
  {
    if rs != [] {
      AllThere(os[..|os| - 1], rs[..|rs| - 1]);
      assert rs == rs[..|rs| - 1] + [rs[|rs| - 1]];
    }
  }

  lemma ScanLinesParse(rs: seq<ScanResult>)
    requires forall r <- rs :: Writable(r)
    ensures CleanLines(ScanLines(rs)) && Parseable(ScanLines(rs)) == rs
  {
    var lines := ScanLines(rs);
    forall i | 0 <= i < |rs| ensures CleanLine(lines[i]) {
      ScanLineClean(rs[i]);
    }
    var os := Map(FromLine, lines);
    forall i | 0 <= i < |rs| ensures os[i] == Some(rs[i]) {
      ScanLineParses(rs[i]);
    }
    AllThere(os, rs);
  }

  lemma {:induction false} TrimEndNewlinesStop(s: string, newlines: string)
    requires s != "" && s[|s| - 1] != '\n' && forall c <- newlines :: c == '\n'
    ensures TrimEndNewlines(s + newlines) == s
  {
    if newlines == "" {
      assert s + newlines == s;
    } else {
      var n := |newlines| - 1;
      assert newlines[n] in newlines && forall c <- newlines[..n] :: c in newlines;
      assert (s + newlines)[..|s| + n] == s + newlines[..n];
      TrimEndNewlinesStop(s, newlines[..n]);
    }
  }

  /** A written table is read back through the newline-only trim of the reply: no name is lost,
      not even an empty one on the last line. */
  lemma TableRoundTrip(header: string, rs: seq<ScanResult>, newlines: string)
    requires CleanLine(header) && (forall r <- rs :: Writable(r)) && forall c <- newlines :: c == '\n'
    ensures VecFromStr(TrimEndNewlines(Terminated([header] + ScanLines(rs)) + newlines)) == SortBySignal(rs)
  {
    hide TrimEndNewlines, Terminated, Lines, SortBySignal, ScanLine, FromLine, Writable;
    if rs == [] {
      EmptyTable(header, newlines);
      assert [header] + ScanLines(rs) == [header];
      return;
    }
    var (init, last) := (rs[..|rs| - 1], rs[|rs| - 1]);
    assert rs == init + [last];
    var lines := [header] + ScanLines(init);
    ScanLinesParse(rs);
    ScanLineClean(last);
    assert ScanLines(rs) == ScanLines(init) + [ScanLine(last)];
    assert forall l <- ScanLines(init) :: l in ScanLines(rs);
    assert [header] + ScanLines(rs) == lines + [ScanLine(last)];
    TrimmedTable(lines, ScanLine(last), newlines);
    LinesOfTerminated(lines, ScanLine(last));
    assert (lines + [ScanLine(last)])[1..] == ScanLines(rs);
  }

  lemma EmptyTable(header: string, newlines: string)
    requires '\n' !in header && forall c <- newlines :: c == '\n'
    ensures VecFromStr(TrimEndNewlines(Terminated([header]) + newlines)) == SortBySignal([])
  {
    hide TrimEndNewlines;
    assert Terminated([header]) == header + "\n" by {
      assert [header][1..] == [] && header + "\n" + "" == header + "\n";
    }
    assert header + "\n" + newlines == header + ("\n" + newlines);
    if header == "" {
      assert header + ("\n" + newlines) == "\n" + newlines;
      OnlyNewlines("\n" + newlines);
    } else {
      TrimEndNewlinesStop(header, "\n" + newlines);
      FindNone(header, '\n');
    }
  }

  lemma {:induction false} OnlyNewlines(newlines: string)
    requires forall c <- newlines :: c == '\n'
    ensures TrimEndNewlines(newlines) == ""
  {
    if newlines != "" {
      var n := |newlines| - 1;
      assert newlines[n] in newlines && forall c <- newlines[..n] :: c in newlines;
      OnlyNewlines(newlines[..n]);
    }
  }

  lemma TrimmedTable(lines: seq<string>, last: string, newlines: string)
    requires last != "" && last[|last| - 1] != '\n' && forall c <- newlines :: c == '\n'
    ensures TrimEndNewlines(Terminated(lines + [last]) + newlines) == Terminated(lines) + last
  {
    TerminatedAppend(lines, [last]);
    assert Terminated([last]) == last + "\n" by {
      assert [last][1..] == [] && last + "\n" + "" == last + "\n";
    }
    var text := Terminated(lines) + last;
    assert Terminated(lines) + (last + "\n") + newlines == text + ("\n" + newlines);
    TrimEndNewlinesStop(text, "\n" + newlines);
  }
}
