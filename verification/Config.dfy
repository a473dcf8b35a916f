/** The `key[i]=value` parser `config::from_str`, up to its table of vectors. */
module Config {
  import opened Wrappers
  import opened Text
  import opened Escape

  datatype Entry = Entry(key: string, index: nat, value: string)

  type Table = map<string, seq<string>>

  // ------ The parser ----------------------------

  /** The index text of `k[i]`: everything up to a `]` that ends the key. */
  function IndexText(i: string): Option<string> {
    if i != "" && i[|i| - 1] == ']' then Some(i[..|i| - 1]) else None
  }

  function ParseLine(line: string): Result<Entry, ConfigError> {
    match SplitOnce(line, '=')
    case None => Err(MissingDelimiterEqual)
    case Some((k, v)) =>
      match SplitOnce(k, '[')
      case None => Ok(Entry(Trim(k), 0, v))
      case Some((name, bracket)) =>
        match IndexText(bracket)
        case None => Err(SerdeError(InvalidKey))
        case Some(i) =>
          match ParseUnsigned(i, USIZE_MAX)
          case None => Err(SerdeError(BadIndex))
          case Some(n) => Ok(Entry(Trim(name), n, v))
  }

  // ------ Which lines are accepted ----------------------------

  /** The name of a line's key, its bracketed index text if it has one, and its value. */
  predicate Writes(line: string, name: string, index: Option<string>, v: string) {
    '=' !in name && '[' !in name
    && match index
       case None => line == name + "=" + v
       case Some(i) => '=' !in i && line == name + "[" + i + "]=" + v
  }

  ghost predicate WritesEntry(line: string, e: Entry) {
    || (exists name :: Writes(line, name, None, e.value) && Trim(name) == e.key && e.index == 0)
    || (exists name, i ::
          Writes(line, name, Some(i), e.value) && Trim(name) == e.key && Spells(i, e.index) && e.index <= USIZE_MAX)
  }

  /** A line is accepted exactly when it is a name, perhaps a number in brackets right after it, an equals sign and a
      value; the name is trimmed and the value is not, and a bare name has index 0. */
  lemma LineExactly(line: string, e: Entry)
    ensures ParseLine(line) == Ok(e) <==> WritesEntry(line, e)
  {
    if WritesEntry(line, e) {
      WrittenParses(line, e);
    }
    if ParseLine(line) == Ok(e) {
      ParsedWritten(line, e);
    }
  }

  lemma WrittenParses(line: string, e: Entry)
    requires WritesEntry(line, e)
    ensures ParseLine(line) == Ok(e)
  {
    hide Trim, ParseUnsigned, Spells;
    if name :| Writes(line, name, None, e.value) && Trim(name) == e.key && e.index == 0 {
      SplitOnceAt(name, '=', e.value);
      FindNone(name, '[');
    } else {
      var name, i :|
        Writes(line, name, Some(i), e.value) && Trim(name) == e.key && Spells(i, e.index) && e.index <= USIZE_MAX;
      SplitIndexed(name, i, e.value);
      UnsignedExactly(i, USIZE_MAX, e.index);
    }
  }

  lemma ParsedWritten(line: string, e: Entry)
    requires ParseLine(line) == Ok(e)
    ensures WritesEntry(line, e)
  {
    hide Trim, ParseUnsigned, Spells;
    SplitOnceInverse(line, '=');
    var (k, v) := SplitOnce(line, '=').value;
    SplitOnceInverse(k, '[');
    if SplitOnce(k, '[').None? {
      assert Writes(line, k, None, v);
    } else {
      var (name, bracket) := SplitOnce(k, '[').value;
      var i := IndexText(bracket).value;
      UnsignedExactly(i, USIZE_MAX, e.index);
      assert bracket == i + "]" && k == name + "[" + i + "]";
      assert line == name + "[" + i + "]=" + v;
      assert forall c <- i :: c in k;
      assert Writes(line, name, Some(i), v);
    }
  }

  /** A line is refused for its missing equals sign exactly when it has none, before anything else is looked at. */
  lemma NoEquals(line: string)
    ensures ParseLine(line) == Err(MissingDelimiterEqual) <==> '=' !in line
  {
    SplitOnceInverse(line, '=');
  }

  /** Text after the closing bracket, or none at all, makes the key invalid. */
  lemma InvalidBracket(name: string, bracket: string, v: string)
    requires '=' !in name && '[' !in name && '=' !in bracket
    ensures ParseLine(name + "[" + bracket + "=" + v) == Err(SerdeError(InvalidKey))
       <==> bracket == "" || bracket[|bracket| - 1] != ']'
  {
    SplitOnceAt(name + "[" + bracket, '=', v);
    SplitOnceAt(name, '[', bracket);
  }

  function Get(t: Table, k: string): seq<string> {
    if k in t then t[k] else []
  }

  function Insert(t: Table, e: Entry): Result<Table, ConfigError> {
    if |Get(t, e.key)| == e.index then Ok(t[e.key := Get(t, e.key) + [e.value]])
    else Err(SerdeError(DuplicateKey))
  }

  type Parsed = Result<Entry, ConfigError>

  function ParseAll(lines: seq<string>): (ps: seq<Parsed>)
    ensures |ps| == |lines| && forall i | 0 <= i < |lines| :: ps[i] == ParseLine(lines[i])
  {
    seq(|lines|, i requires 0 <= i < |lines| => ParseLine(lines[i]))
  }

  function Add(r: Result<Table, ConfigError>, p: Parsed): Result<Table, ConfigError> {
    match r
    case Err(e) => Err(e)
    case Ok(t) => match p
      case Err(e) => Err(e)
      case Ok(entry) => Insert(t, entry)
  }

  /** The lines entered one after the other; the first bad one decides the error. */
  function Collect(ps: seq<Parsed>): Result<Table, ConfigError> {
    if ps == [] then Ok(map[]) else Add(Collect(ps[..|ps| - 1]), ps[|ps| - 1])
  }

  function ParseText(s: string): Result<Table, ConfigError> {
    Collect(ParseAll(Lines(Trim(s))))
  }

  lemma CollectStep(ps: seq<Parsed>, p: Parsed)
    ensures Collect(ps + [p]) == Add(Collect(ps), p)
  {
  }

  lemma Snoc<T>(a: seq<T>, c: seq<T>)
    requires c != []
    ensures a + c == (a + c[..|c| - 1]) + [c[|c| - 1]]
  {
  }

  lemma {:induction false} CollectAppend(a: seq<Parsed>, b: seq<Parsed>, c: seq<Parsed>)
    requires Collect(a) == Collect(b)
    ensures Collect(a + c) == Collect(b + c)
  {
    if c == [] {
      assert a + c == a && b + c == b;
    } else {
      var n := |c| - 1;
      CollectAppend(a, b, c[..n]);
      Snoc(a, c);
      Snoc(b, c);
      CollectStep(a + c[..n], c[n]);
      CollectStep(b + c[..n], c[n]);
    }
  }

  /** A bad front decides the error of the whole. */
  lemma {:induction false} CollectFails(a: seq<Parsed>, b: seq<Parsed>)
    requires Collect(a).Err?
    ensures Collect(a + b) == Collect(a)
  {
    if b == [] {
      assert a + b == a;
    } else {
      CollectFails(a, b[..|b| - 1]);
      Snoc(a, b);
      CollectStep(a + b[..|b| - 1], b[|b| - 1]);
    }
  }

  lemma CollectFront(ps: seq<Parsed>, n: nat)
    requires n < |ps|
    ensures Collect(ps[..n + 1]) == Add(Collect(ps[..n]), ps[n])
    ensures Collect(ps[..n + 1]).Err? ==> Collect(ps) == Collect(ps[..n + 1])
  {
    hide Collect, Add;
    assert ps[..n + 1] == ps[..n] + [ps[n]];
    CollectStep(ps[..n], ps[n]);
    if Collect(ps[..n + 1]).Err? {
      CollectFails(ps[..n + 1], ps[n + 1..]);
      assert ps == ps[..n + 1] + ps[n + 1..];
    }
  }

  /** The line loop that fills the hash map. */
  method FillTable(s: string) returns (r: Result<Table, ConfigError>)
    ensures r == ParseText(s)
  {
    var lines := Lines(Trim(s));
    ghost var ps := ParseAll(lines);
    var table: Table := map[];
    for n := 0 to |lines|
      invariant Collect(ps[..n]) == Ok(table)
    {
      CollectFront(ps, n);
      var parsed := ParseLine(lines[n]);
      if parsed.Err? {
        return Err(parsed.error);
      }
      var values := Get(table, parsed.value.key);
      if |values| != parsed.value.index {
        return Err(SerdeError(DuplicateKey));
      }
      table := table[parsed.value.key := values + [parsed.value.value]];
    }
    assert ps[..|lines|] == ps;
    r := Ok(table);
  }

  // ------ What it accepts ----------------------------

  /** The values that the parseable lines give to a key, in line order. */
  function Values(ps: seq<Parsed>, k: string): seq<string> {
    if ps == [] then []
    else
      var e := ps[|ps| - 1];
      Values(ps[..|ps| - 1], k) + (if e.Ok? && e.value.key == k then [e.value.value] else [])
  }

  /** Line `j` parses, and its index is the number of earlier lines with its key. */
  predicate InSequence(ps: seq<Parsed>, j: nat)
    requires j < |ps|
  {
    ps[j].Ok? && ps[j].value.index == |Values(ps[..j], ps[j].value.key)|
  }

  predicate WellIndexed(ps: seq<Parsed>) {
    forall j | 0 <= j < |ps| :: InSequence(ps, j)
  }

  lemma WellIndexedStep(ps: seq<Parsed>, p: Parsed)
    ensures WellIndexed(ps + [p]) <==> WellIndexed(ps) && InSequence(ps + [p], |ps|)
  {
    var qs := ps + [p];
    forall j | 0 <= j < |ps| ensures InSequence(qs, j) <==> InSequence(ps, j) {
      assert qs[..j] == ps[..j];
    }
    assert WellIndexed(qs) ==> forall j | 0 <= j < |ps| :: InSequence(qs, j);
  }

  lemma {:induction false} CollectedValues(ps: seq<Parsed>, k: string)
    requires Collect(ps).Ok?
    ensures Get(Collect(ps).value, k) == Values(ps, k)
    ensures k in Collect(ps).value ==> Values(ps, k) != []
  {
    if ps != [] {
      CollectedValues(ps[..|ps| - 1], k);
    }
  }

  /** Lines are accepted just when every key's indices are 0, 1, 2, ... in line order. */
  lemma {:induction false} AcceptedExactly(ps: seq<Parsed>)
    ensures Collect(ps).Ok? <==> WellIndexed(ps)
  {
    if ps != [] {
      var n := |ps| - 1;
      AcceptedExactly(ps[..n]);
      assert ps == ps[..n] + [ps[n]];
      WellIndexedStep(ps[..n], ps[n]);
      if WellIndexed(ps[..n]) && ps[n].Ok? {
        CollectedValues(ps[..n], ps[n].value.key);
      }
    }
  }

  /** Entry `i` of key `k` is what line `j` says. */
  predicate Gives(ps: seq<Parsed>, j: int, k: string, i: nat, v: string) {
    0 <= j < |ps| && ps[j] == Ok(Entry(k, i, v))
  }

  lemma {:induction false} LineIsEntry(ps: seq<Parsed>, j: nat)
    requires WellIndexed(ps) && j < |ps|
    ensures ps[j].Ok?
    ensures var e := ps[j].value; e.index < |Values(ps, e.key)| && Values(ps, e.key)[e.index] == e.value
  {
    var n := |ps| - 1;
    assert ps == ps[..n] + [ps[n]];
    WellIndexedStep(ps[..n], ps[n]);
    if j < n {
      LineIsEntry(ps[..n], j);
    }
  }

  lemma {:induction false} EntryIsLine(ps: seq<Parsed>, k: string, i: nat) returns (j: nat)
    requires WellIndexed(ps) && i < |Values(ps, k)|
    ensures Gives(ps, j, k, i, Values(ps, k)[i])
  {
    var n := |ps| - 1;
    assert ps == ps[..n] + [ps[n]];
    WellIndexedStep(ps[..n], ps[n]);
    if i < |Values(ps[..n], k)| {
      j := EntryIsLine(ps[..n], k, i);
    } else {
      j := n;
    }
  }

  lemma {:induction false} LaterLineLaterIndex(ps: seq<Parsed>, j: nat, j': nat)
    requires WellIndexed(ps) && j < j' < |ps|
    requires ps[j].Ok? && ps[j'].Ok? && ps[j].value.key == ps[j'].value.key
    ensures ps[j].value.index < ps[j'].value.index
  {
    assert InSequence(ps, j');
    var front := ps[..j'];
    forall n | 0 <= n < j' ensures InSequence(front, n) {
      assert front[..n] == ps[..n];
      assert InSequence(ps, n);
    }
    LineIsEntry(front, j);
  }

  /** Every line is an entry of the table. */
  predicate Covered(t: Table, ps: seq<Parsed>) {
    forall j | 0 <= j < |ps| ::
      ps[j].Ok? && var e := ps[j].value; e.key in t && e.index < |t[e.key]| && t[e.key][e.index] == e.value
  }

  /** Every entry of the table is a line, and no key is empty. */
  ghost predicate Grounded(t: Table, ps: seq<Parsed>) {
    forall k <- t :: t[k] != [] && forall i | 0 <= i < |t[k]| :: HasLine(ps, k, i, t[k][i])
  }

  ghost predicate HasLine(ps: seq<Parsed>, k: string, i: nat, v: string) {
    exists j :: Gives(ps, j, k, i, v)
  }

  /** Later lines of a key have larger indices, so no two lines are the same entry. */
  predicate Increasing(ps: seq<Parsed>) {
    forall j, j' | 0 <= j < j' < |ps| && ps[j].Ok? && ps[j'].Ok? && ps[j].value.key == ps[j'].value.key ::
      ps[j].value.index < ps[j'].value.index
  }

  lemma TableCovered(ps: seq<Parsed>)
    requires Collect(ps).Ok?
    ensures Covered(Collect(ps).value, ps)
  {
    AcceptedExactly(ps);
    var t := Collect(ps).value;
    forall j | 0 <= j < |ps|
      ensures ps[j].Ok? && var e := ps[j].value; e.key in t && e.index < |t[e.key]| && t[e.key][e.index] == e.value
    {
      LineIsEntry(ps, j);
      CollectedValues(ps, ps[j].value.key);
    }
  }

  lemma TableGrounded(ps: seq<Parsed>)
    requires Collect(ps).Ok?
    ensures Grounded(Collect(ps).value, ps)
  {
    AcceptedExactly(ps);
    var t := Collect(ps).value;
    forall k <- t
      ensures t[k] != [] && forall i | 0 <= i < |t[k]| :: HasLine(ps, k, i, t[k][i])
    {
      CollectedValues(ps, k);
      forall i | 0 <= i < |t[k]| ensures HasLine(ps, k, i, t[k][i]) {
        var j := EntryIsLine(ps, k, i);
      }
    }
  }

  /** The lines of an accepted text and the entries of its table correspond one to one. */
  lemma LinesAreEntries(s: string)
    requires ParseText(s).Ok?
    ensures Covered(ParseText(s).value, ParseAll(Lines(Trim(s))))
    ensures Grounded(ParseText(s).value, ParseAll(Lines(Trim(s))))
    ensures Increasing(ParseAll(Lines(Trim(s))))
  {
    var ps := ParseAll(Lines(Trim(s)));
    AcceptedExactly(ps);
    TableCovered(ps);
    TableGrounded(ps);
    forall j, j' | 0 <= j < j' < |ps| && ps[j].Ok? && ps[j'].Ok? && ps[j].value.key == ps[j'].value.key
      ensures ps[j].value.index < ps[j'].value.index
    {
      LaterLineLaterIndex(ps, j, j');
    }
  }

  lemma SwapTwo(t: Table, e: Entry, f: Entry)
    requires e.key != f.key
    ensures Add(Insert(t, e), Ok(f)) == Add(Insert(t, f), Ok(e))
  {
    if |Get(t, e.key)| == e.index && |Get(t, f.key)| == f.index {
      var te, tf := t[e.key := Get(t, e.key) + [e.value]], t[f.key := Get(t, f.key) + [f.value]];
      assert te[f.key := Get(t, f.key) + [f.value]] == tf[e.key := Get(t, e.key) + [e.value]];
    }
  }

  /** Exchanging neighbouring lines of different keys changes nothing. */
  lemma SwapLines(a: seq<Parsed>, e: Entry, f: Entry, b: seq<Parsed>)
    requires e.key != f.key
    ensures Collect(a + [Ok(e), Ok(f)] + b) == Collect(a + [Ok(f), Ok(e)] + b)
  {
    assert a + [Ok(e), Ok(f)] == a + [Ok(e)] + [Ok(f)] && a + [Ok(f), Ok(e)] == a + [Ok(f)] + [Ok(e)];
    CollectStep(a, Ok(e));
    CollectStep(a, Ok(f));
    CollectStep(a + [Ok(e)], Ok(f));
    CollectStep(a + [Ok(f)], Ok(e));
    if Collect(a).Ok? {
      SwapTwo(Collect(a).value, e, f);
    }
    CollectAppend(a + [Ok(e), Ok(f)], a + [Ok(f), Ok(e)], b);
  }

  // ------ Rendering ----------------------------

  /** A key that a line can carry: nothing in it ends the key, the index or the line. */
  predicate CleanKey(k: string) {
    Trimmed(k) && '=' !in k && '[' !in k && '\n' !in k
  }

  /** One line to write; a first entry may be written without its index. */
  datatype Pair = Pair(key: string, value: string, bare: bool)

  function RenderLine(p: Pair, index: nat): string {
    if p.bare && index == 0 then p.key + "=" + p.value
    else p.key + "[" + Decimal(index) + "]=" + p.value
  }

  function PairValues(pairs: seq<Pair>, k: string): seq<string> {
    if pairs == [] then []
    else
      var p := pairs[|pairs| - 1];
      PairValues(pairs[..|pairs| - 1], k) + (if p.key == k then [p.value] else [])
  }

  /** Every pair with its number within its key. */
  function Numbered(pairs: seq<Pair>): (es: seq<Parsed>)
    ensures |es| == |pairs|
  {
    if pairs == [] then []
    else
      var init, p := pairs[..|pairs| - 1], pairs[|pairs| - 1];
      Numbered(init) + [Ok(Entry(p.key, |PairValues(init, p.key)|, p.value))]
  }

  /** Every pair on its line, numbered within its key. */
  function Render(pairs: seq<Pair>): (lines: seq<string>)
    ensures |lines| == |pairs|
  {
    if pairs == [] then []
    else
      var init, p := pairs[..|pairs| - 1], pairs[|pairs| - 1];
      Render(init) + [RenderLine(p, |PairValues(init, p.key)|)]
  }

  predicate CleanPairs(pairs: seq<Pair>) {
    |pairs| <= USIZE_MAX && forall p <- pairs :: CleanKey(p.key) && CleanLine(p.value)
  }

  lemma TrimTrimmed(k: string)
    requires Trimmed(k)
    ensures Trim(k) == k
  {
  }

  /** Writing an index puts only digits before the bracket. */
  lemma ParseRendered(p: Pair, index: nat)
    requires CleanKey(p.key) && index <= USIZE_MAX
    ensures ParseLine(RenderLine(p, index)) == Ok(Entry(p.key, index, p.value))
  {
    TrimTrimmed(p.key);
    if p.bare && index == 0 {
      SplitOnceAt(p.key, '=', p.value);
      FindNone(p.key, '[');
    } else {
      var bracket := Decimal(index) + "]";
      var k := p.key + "[" + bracket;
      assert '=' !in k;
      assert RenderLine(p, index) == k + "=" + p.value;
      SplitOnceAt(k, '=', p.value);
      SplitOnceAt(p.key, '[', bracket);
      assert bracket[..|bracket| - 1] == Decimal(index);
      ParseDecimal(index, USIZE_MAX);
    }
  }

  /** An index may have a plus sign and leading zeros, as in `k[+1]` and `k[007]`, and they do not show. */
  lemma IndexSpellings(k: string, plus: bool, zeros: string, n: nat, v: string)
    requires CleanKey(k) && AllZeros(zeros) && n <= USIZE_MAX
    ensures ParseLine(k + "[" + ((if plus then "+" else "") + (zeros + Decimal(n))) + "]=" + v) == Ok(Entry(k, n, v))
  {
    hide CleanKey, ParseUnsigned, Trim, Decimal;
    KeyShape(k);
    var index := (if plus then "+" else "") + (zeros + Decimal(n));
    Spelled(plus, zeros, n);
    UnsignedExactly(index, USIZE_MAX, n);
    SplitIndexed(k, index, v);
  }

  lemma Spelled(plus: bool, zeros: string, n: nat)
    requires AllZeros(zeros)
    ensures var index := (if plus then "+" else "") + (zeros + Decimal(n)); Spells(index, n) && '=' !in index
  {
    var digits := zeros + Decimal(n);
    assert ("+" + digits)[1..] == digits && "" + digits == digits;
    assert SpellsDigits(digits, n);
  }

  lemma KeyShape(k: string)
    requires CleanKey(k)
    ensures '=' !in k && '[' !in k && Trim(k) == k
  {
    TrimTrimmed(k);
  }

  lemma SplitIndexed(k: string, i: string, v: string)
    requires '=' !in k && '[' !in k && '=' !in i
    ensures ParseLine(k + "[" + i + "]=" + v)
         == match ParseUnsigned(i, USIZE_MAX)
            case None => Err(SerdeError(BadIndex))
            case Some(n) => Ok(Entry(Trim(k), n, v))
  {
    hide Trim, ParseUnsigned;
    SplitOnceAt(k + "[" + i + "]", '=', v);
    SplitOnceAt(k, '[', i + "]");
    assert (k + "[" + i + "]") + "=" + v == k + "[" + i + "]=" + v;
    assert k + "[" + (i + "]") == k + "[" + i + "]" && (i + "]")[..|i|] == i;
  }

  lemma {:induction false} PairValuesLength(pairs: seq<Pair>, k: string)
    ensures |PairValues(pairs, k)| <= |pairs|
  {
    if pairs != [] {
      PairValuesLength(pairs[..|pairs| - 1], k);
    }
  }

  lemma CleanInit(pairs: seq<Pair>)
    requires CleanPairs(pairs) && pairs != []
    ensures CleanPairs(pairs[..|pairs| - 1])
    ensures pairs[|pairs| - 1] in pairs
  {
  }

  lemma {:induction false} RenderedParses(pairs: seq<Pair>)
    requires CleanPairs(pairs)
    ensures ParseAll(Render(pairs)) == Numbered(pairs)
  {
    if pairs != [] {
      var init, p := pairs[..|pairs| - 1], pairs[|pairs| - 1];
      CleanInit(pairs);
      RenderedParses(init);
      PairValuesLength(init, p.key);
      ParseRendered(p, |PairValues(init, p.key)|);
      assert ParseAll(Render(pairs)) == ParseAll(Render(init)) + [ParseLine(RenderLine(p, |PairValues(init, p.key)|))];
    }
  }

  /** Whatever the interleaving, the numbered pairs give each key its own values in order. */
  lemma CollectNothing(pairs: seq<Pair>)
    requires pairs == []
    ensures Collect(Numbered(pairs)) == Ok(map[])
    ensures forall k :: PairValues(pairs, k) == []
  {
  }

  lemma {:induction false} CollectNumbered(pairs: seq<Pair>)
    ensures Collect(Numbered(pairs)).Ok?
    ensures forall k :: Get(Collect(Numbered(pairs)).value, k) == PairValues(pairs, k)
    ensures Collect(Numbered(pairs)).value.Keys == set p <- pairs :: p.key
  {
    hide Collect, Numbered, PairValues;
    if pairs == [] {
      CollectNothing(pairs);
    } else {
      var init, p := pairs[..|pairs| - 1], pairs[|pairs| - 1];
      CollectNumbered(init);
      assert pairs == init + [p];
      NumberedSnoc(init, p);
      CollectStep(Numbered(init), Ok(Entry(p.key, |PairValues(init, p.key)|, p.value)));
      KeysSnoc(init, p);
    }
  }

  lemma NumberedSnoc(init: seq<Pair>, p: Pair)
    ensures Numbered(init + [p]) == Numbered(init) + [Ok(Entry(p.key, |PairValues(init, p.key)|, p.value))]
    ensures forall k :: PairValues(init + [p], k) == PairValues(init, k) + (if p.key == k then [p.value] else [])
  {
  }

  lemma KeysSnoc(init: seq<Pair>, p: Pair)
    ensures (set q <- init + [p] :: q.key) == (set q <- init :: q.key) + {p.key}
  {
  }

  lemma {:induction false} RenderClean(pairs: seq<Pair>)
    requires CleanPairs(pairs)
    ensures CleanLines(Render(pairs))
    ensures pairs != [] ==> Render(pairs)[0] != "" && !IsWhitespace(Render(pairs)[0][0])
  {
    if pairs != [] {
      CleanInit(pairs);
      RenderClean(pairs[..|pairs| - 1]);
      var p := pairs[|pairs| - 1];
      RenderedLineClean(p, |PairValues(pairs[..|pairs| - 1], p.key)|);
    }
  }

  lemma RenderedLineClean(p: Pair, index: nat)
    requires CleanKey(p.key) && CleanLine(p.value)
    ensures CleanLine(RenderLine(p, index))
    ensures RenderLine(p, index) != "" && !IsWhitespace(RenderLine(p, index)[0])
  {
    var line := RenderLine(p, index);
    assert '\n' !in Decimal(index);
    if p.value != "" {
      assert line[|line| - 1] == p.value[|p.value| - 1];
    }
  }

  // ------ From lines to the text ----------------------------

  predicate AllWhitespace(s: string) {
    forall c <- s :: IsWhitespace(c)
  }

  lemma {:induction false} TrimEndPad(s: string, pad: string)
    requires AllWhitespace(pad)
    ensures TrimEnd(s + pad) == TrimEnd(s)
  {
    if pad == "" {
      assert s + pad == s;
    } else {
      var n := |pad| - 1;
      assert pad[n] in pad && forall c <- pad[..n] :: c in pad;
      assert (s + pad)[..|s| + n] == s + pad[..n];
      TrimEndPad(s, pad[..n]);
    }
  }

  lemma {:induction false} TrimEndPrefix(s: string)
    ensures TrimEnd(s) <= s
    ensures AllWhitespace(s[|TrimEnd(s)|..])
  {
    if s != "" && IsWhitespace(s[|s| - 1]) {
      var init := s[..|s| - 1];
      TrimEndPrefix(init);
      assert s[|TrimEnd(s)|..] == init[|TrimEnd(init)|..] + [s[|s| - 1]];
    }
  }

  ghost predicate Surrounds(s: string, t: string) {
    exists a, b :: AllWhitespace(a) && AllWhitespace(b) && s == a + t + b
  }

  /** Trimming takes away exactly the whitespace around a text. */
  lemma TrimExactly(s: string, t: string)
    ensures Trim(s) == t <==> Trimmed(t) && Surrounds(s, t)
  {
    hide Trim, Surrounds, Trimmed;
    if Trimmed(t) && Surrounds(s, t) {
      SurroundedTrims(s, t);
    }
    TrimsSurrounded(s);
  }

  lemma SurroundedTrims(s: string, t: string)
    requires Trimmed(t) && Surrounds(s, t)
    ensures Trim(s) == t
  {
    hide AllWhitespace, TrimStart, TrimEnd, IsWhitespace;
    var a, b :| AllWhitespace(a) && AllWhitespace(b) && s == a + t + b;
    assert s == a + (t + b);
    TrimStartAfter(a, t + b);
    if t == "" {
      assert t + b == b && b + "" == b;
      TrimStartAfter(b, "");
      TrimNothing();
    } else {
      assert (t + b)[0] == t[0];
      TrimStartStops(t + b);
      TrimEndPad(t, b);
      VisibleEnd(t);
    }
  }

  lemma TrimNothing()
    ensures TrimStart("") == "" && TrimEnd("") == ""
  {
  }

  lemma TrimStartStops(s: string)
    requires s != "" && !IsWhitespace(s[0])
    ensures TrimStart(s) == s
  {
  }

  lemma TrimsSurrounded(s: string)
    ensures Trimmed(Trim(s)) && Surrounds(s, Trim(s))
  {
    hide AllWhitespace, TrimStart, TrimEnd, IsWhitespace;
    TrimStartParts(s);
    var u := TrimStart(s);
    TrimEndPrefix(u);
    TrimEndVisible(u);
    assert s == s[..|s| - |u|] + TrimEnd(u) + u[|TrimEnd(u)|..];
  }

  lemma {:induction false} TrimEndVisible(u: string)
    ensures TrimEnd(u) != "" ==> !IsWhitespace(TrimEnd(u)[|TrimEnd(u)| - 1])
  {
    if u != "" && IsWhitespace(u[|u| - 1]) {
      TrimEndVisible(u[..|u| - 1]);
    }
  }

  lemma {:induction false} TrimStartAfter(a: string, s: string)
    requires AllWhitespace(a)
    ensures TrimStart(a + s) == TrimStart(s)
  {
    if a == "" {
      assert a + s == s;
    } else {
      assert a[0] in a && forall c <- a[1..] :: c in a;
      assert (a + s)[1..] == a[1..] + s;
      TrimStartAfter(a[1..], s);
    }
  }

  lemma {:induction false} TrimStartParts(s: string)
    ensures |TrimStart(s)| <= |s| && s[|s| - |TrimStart(s)|..] == TrimStart(s)
    ensures AllWhitespace(s[..|s| - |TrimStart(s)|])
    ensures TrimStart(s) != "" ==> !IsWhitespace(TrimStart(s)[0])
  {
    if s != "" && IsWhitespace(s[0]) {
      TrimStartParts(s[1..]);
      var n := |s[1..]| - |TrimStart(s)|;
      assert s[..n + 1] == [s[0]] + s[1..][..n] && s[n + 1..] == s[1..][n..];
    }
  }

  /** The lines of a text that starts with something visible: only its very end is trimmed. */
  lemma TextLines(init: seq<string>, stem: string, v: string, pad: string)
    requires CleanLines(init) && '\n' !in stem && '\n' !in v && AllWhitespace(pad)
    requires stem != "" && !IsWhitespace(stem[0]) && !IsWhitespace(stem[|stem| - 1])
    requires init != [] ==> init[0] != "" && !IsWhitespace(init[0][0])
    ensures Lines(Trim((Terminated(init) + stem) + (v + pad))) == init + [stem + TrimEnd(v)]
  {
    hide Lines, TrimEnd, Terminated, IsWhitespace, AllWhitespace;
    var front := Terminated(init) + stem;
    FrontVisible(init, stem);
    assert (front + (v + pad))[0] == front[0];
    TrimTail(front, v, pad);
    TrimEndPrefix(v);
    assert forall c <- TrimEnd(v) :: c in v;
    assert front + TrimEnd(v) == Terminated(init) + (stem + TrimEnd(v));
    LinesOfTerminated(init, stem + TrimEnd(v));
  }

  lemma FrontVisible(init: seq<string>, stem: string)
    requires stem != "" && !IsWhitespace(stem[0]) && !IsWhitespace(stem[|stem| - 1])
    requires init != [] ==> init[0] != "" && !IsWhitespace(init[0][0])
    ensures var front := Terminated(init) + stem;
            front != "" && !IsWhitespace(front[0]) && !IsWhitespace(front[|front| - 1])
  {
  }

  lemma TrimTail(front: string, v: string, pad: string)
    requires front != "" && !IsWhitespace(front[|front| - 1]) && AllWhitespace(pad)
    ensures TrimEnd(front + (v + pad)) == front + TrimEnd(v)
  {
    TrimEndAfter(front, v + pad);
    TrimEndPad(v, pad);
  }

  lemma {:induction false} VisibleEnd(v: string)
    requires v == "" || !IsWhitespace(v[|v| - 1])
    ensures TrimEnd(v) == v
  {
  }

  function Stem(p: Pair, index: nat): string {
    if p.bare && index == 0 then p.key + "=" else p.key + "[" + Decimal(index) + "]="
  }

  /** Rendered text parses back to the same vectors, for any interleaving of the keys. */
  lemma RenderedTextParses(pairs: seq<Pair>, pad: string)
    requires CleanPairs(pairs) && AllWhitespace(pad)
    requires pairs != [] ==> VisibleTail(pairs[|pairs| - 1].value)
    ensures ParseText(Terminated(Render(pairs)) + pad).Ok?
    ensures var t := ParseText(Terminated(Render(pairs)) + pad).value;
            t.Keys == (set p <- pairs :: p.key) && forall k <- t :: t[k] == PairValues(pairs, k)
  {
    RenderedLines(pairs, pad);
    RenderedParses(pairs);
    CollectNumbered(pairs);
    var t := Collect(Numbered(pairs)).value;
    assert forall k <- t :: t[k] == Get(t, k);
  }

  /** Trimming the rendered text and splitting it gives the rendered lines. */
  lemma RenderedLines(pairs: seq<Pair>, pad: string)
    requires CleanPairs(pairs) && AllWhitespace(pad)
    requires pairs != [] ==> VisibleTail(pairs[|pairs| - 1].value)
    ensures Lines(Trim(Terminated(Render(pairs)) + pad)) == Render(pairs)
  {
    if pairs == [] {
      TrimStartPad(pad);
      assert Terminated(Render(pairs)) + pad == pad;
    } else {
      VisibleEnd(pairs[|pairs| - 1].value);
      RenderedTail(pairs, pad);
    }
  }

  /** In general only the last value can lose something: the whitespace at its end. */
  lemma RenderedTail(pairs: seq<Pair>, pad: string)
    requires CleanPairs(pairs) && AllWhitespace(pad) && pairs != []
    ensures var n := |pairs| - 1;
            Lines(Trim(Terminated(Render(pairs)) + pad))
            == Render(pairs[..n] + [pairs[n].(value := TrimEnd(pairs[n].value))])
  {
    hide Lines, Trim, TrimEnd, Terminated, Stem, IsWhitespace, PairValues, RenderLine, AllWhitespace, Render;
    hide CleanPairs, CleanLines, CleanLine, CleanKey;
    var n := |pairs| - 1;
    var init, p := pairs[..n], pairs[n];
    var index := |PairValues(init, p.key)|;
    CleanInit(pairs);
    CleanLast(pairs);
    RenderClean(init);
    StemLine(p, index);
    TailLines(Render(init), Stem(p, index), p.value, pad);
    assert pairs == init + [p];
    RenderSnoc(init, p);
    var p' := p.(value := TrimEnd(p.value));
    StemLine(p', index);
    SameStem(p, p', index);
    RenderSnoc(init, p');
  }

  lemma CleanLast(pairs: seq<Pair>)
    requires CleanPairs(pairs) && pairs != []
    ensures CleanKey(pairs[|pairs| - 1].key) && '\n' !in pairs[|pairs| - 1].value
  {
  }

  /** The last line, with its end of line and whatever blank text follows. */
  lemma TailLines(lines: seq<string>, stem: string, v: string, pad: string)
    requires CleanLines(lines) && '\n' !in stem && '\n' !in v && AllWhitespace(pad)
    requires stem != "" && !IsWhitespace(stem[0]) && !IsWhitespace(stem[|stem| - 1])
    requires lines != [] ==> lines[0] != "" && !IsWhitespace(lines[0][0])
    ensures Lines(Trim(Terminated(lines + [stem + v]) + pad)) == lines + [stem + TrimEnd(v)]
  {
    hide Lines, Trim, TrimEnd, Terminated, IsWhitespace, AllWhitespace, CleanLines;
    NewlinePad(pad);
    TextLines(lines, stem, v, "\n" + pad);
    TerminatedSnoc(lines, stem, v, pad);
  }

  lemma RenderSnoc(init: seq<Pair>, p: Pair)
    ensures Render(init + [p]) == Render(init) + [RenderLine(p, |PairValues(init, p.key)|)]
  {
  }

  lemma TerminatedSnoc(lines: seq<string>, stem: string, v: string, pad: string)
    ensures Terminated(lines + [stem + v]) + pad == (Terminated(lines) + stem) + (v + ("\n" + pad))
  {
    TerminatedAppend(lines, [stem + v]);
    TerminatedOne(stem + v);
  }

  lemma NewlinePad(pad: string)
    requires AllWhitespace(pad)
    ensures AllWhitespace("\n" + pad)
  {
  }

  lemma TerminatedOne(line: string)
    ensures Terminated([line]) == line + "\n"
  {
  }

  lemma StemLine(p: Pair, index: nat)
    requires CleanKey(p.key)
    ensures RenderLine(p, index) == Stem(p, index) + p.value
    ensures '\n' !in Stem(p, index) && Stem(p, index) != "" && !IsWhitespace(Stem(p, index)[0])
    ensures !IsWhitespace(Stem(p, index)[|Stem(p, index)| - 1])
  {
  }

  lemma SameStem(p: Pair, p': Pair, index: nat)
    requires p'.key == p.key && p'.bare == p.bare
    ensures Stem(p', index) == Stem(p, index)
  {
  }

  predicate VisibleTail(v: string) {
    v == "" || !IsWhitespace(v[|v| - 1])
  }

  lemma {:induction false} TrimStartPad(pad: string)
    requires AllWhitespace(pad)
    ensures TrimStart(pad) == ""
  {
    if pad != "" {
      assert pad[0] in pad && forall c <- pad[1..] :: c in pad;
      TrimStartPad(pad[1..]);
    }
  }
}
