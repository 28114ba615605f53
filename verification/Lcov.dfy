/** Reading, merging and writing LCOV coverage files (tools/bun-test-isolated.js). Numbers are
    strings of decimal digits; a text with any other number has no parse in this model. */
module Lcov {

  import opened Common
  import opened OrderedMap
  import opened Text

  const END_OF_RECORD := "end_of_record"

  /** What one line of a record says. */
  datatype Item =
    | File(path: string)
    | Fn(name: string, line: nat)
    | FnHits(name: string, hits: nat)
    | FnFound(n: nat)
    | FnHit(n: nat)
    | Line(line: nat, hits: nat)
    | LinesFound(n: nat)
    | LinesHit(n: nat)
    | BranchesFound(n: nat)
    | BranchesHit(n: nat)
    | Ignored
    | Malformed

  datatype FileData = FileData(
    fns: Table<string, nat>,
    fndas: Table<string, nat>,
    das: Table<nat, nat>,
    fnf: nat, fnh: nat, lf: nat, lh: nat, brf: nat, brh: nat)

  type FileMap = Table<string, FileData>

  // ---------------------------------------------------------------- merging

  function Max(a: nat, b: nat): nat {
    if a < b then b else a
  }

  function Last(a: nat, b: nat): nat {
    b
  }

  function NoData(): FileData {
    FileData(Empty(), Empty(), Empty(), 0, 0, 0, 0, 0, 0)
  }

  /** Function lines: the newer wins. Hits and totals: the larger wins. */
  function MergeData(a: FileData, b: FileData): FileData {
    FileData(Merge(Last, a.fns, b.fns), Merge(Max, a.fndas, b.fndas), Merge(Max, a.das, b.das),
             Max(a.fnf, b.fnf), Max(a.fnh, b.fnh), Max(a.lf, b.lf), Max(a.lh, b.lh),
             Max(a.brf, b.brf), Max(a.brh, b.brh))
  }

  function MergeMaps(a: FileMap, b: FileMap): FileMap {
    Merge(MergeData, a, b)
  }

  // ---------------------------------------------------------------- one line

  function Numbered(text: string, make: nat -> Item): Item {
    match ParseDecimal(text)
    case None => Malformed
    case Some(n) => make(n)
  }

  /** `text.split(',')`, of which the first two fields count. */
  function Fields(text: string, make: (string, string) -> Item): Item {
    var fields := Split(text, ",");
    if |fields| < 2 then Malformed else make(fields[0], fields[1])
  }

  function ParseLine(line: string): Item {
    if "SF:" <= line then File(line[3..])
    else if "FN:" <= line then Fields(line[3..], (number, name) => Numbered(number, (n: nat) => Fn(name, n)))
    else if "FNDA:" <= line then Fields(line[5..], (number, name) => Numbered(number, (n: nat) => FnHits(name, n)))
    else if "FNF:" <= line then Numbered(line[4..], (n: nat) => FnFound(n))
    else if "FNH:" <= line then Numbered(line[4..], (n: nat) => FnHit(n))
    else if "DA:" <= line then
      Fields(line[3..], (number, hits) => Numbered(number, (n: nat) => Numbered(hits, (h: nat) => Line(n, h))))
    else if "LF:" <= line then Numbered(line[3..], (n: nat) => LinesFound(n))
    else if "LH:" <= line then Numbered(line[3..], (n: nat) => LinesHit(n))
    else if "BRF:" <= line then Numbered(line[4..], (n: nat) => BranchesFound(n))
    else if "BRH:" <= line then Numbered(line[4..], (n: nat) => BranchesHit(n))
    else Ignored
  }

  /** What follows the first two fields, a comma first, does not count. */
  lemma FirstTwoFields(a: string, b: string, more: string)
    requires ',' !in a && ',' !in b && (more != "" ==> more[0] == ',')
    ensures var fields := Split(a + "," + b + more, ","); |fields| >= 2 && fields[0] == a && fields[1] == b
  {
    assert a + "," + b + more == a + "," + (b + more);
    SplitAt(a, ',', b + more);
    if more == "" {
      assert b + more == b;
      WholeLine(b, ',');
    } else {
      assert b + more == b + "," + more[1..];
      SplitAt(b, ',', more[1..]);
    }
  }

  /** How the lines with two fields are read, whatever other fields follow. */
  lemma EntriesAreRead(a: string, b: string, more: string, n: nat)
    requires ',' !in a && ',' !in b && (more != "" ==> more[0] == ',') && ParseDecimal(a) == Some(n)
    ensures ParseLine("FN:" + (a + "," + b + more)) == Fn(b, n)
    ensures ParseLine("FNDA:" + (a + "," + b + more)) == FnHits(b, n)
  {
    hide Split, ParseDecimal;
    var text := a + "," + b + more;
    FirstTwoFields(a, b, more);
    assert "FN:" <= "FN:" + text && ("FN:" + text)[3..] == text && ("FN:" + text)[0] == 'F';
    assert "FNDA:" <= "FNDA:" + text && ("FNDA:" + text)[5..] == text && ("FNDA:" + text)[0] == 'F';
    assert ("FNDA:" + text)[2] == 'D';
  }

  lemma CountsAreRead(a: string, b: string, more: string, n: nat)
    requires ',' !in a && ',' !in b && (more != "" ==> more[0] == ',') && ParseDecimal(a) == Some(n)
    ensures ParseDecimal(b).None? ==> ParseLine("DA:" + (a + "," + b + more)).Malformed?
    ensures ParseDecimal(b).Some? ==> ParseLine("DA:" + (a + "," + b + more)) == Line(n, ParseDecimal(b).value)
  {
    hide Split, ParseDecimal;
    var text := a + "," + b + more;
    FirstTwoFields(a, b, more);
    var line := "DA:" + text;
    assert line[3..] == text;
    assert line[0] == 'D' && "DA:" <= line;
    var fields := Split(text, ",");
    assert fields[0] == a && fields[1] == b;
    assert ParseLine(line) == Numbered(a, (m: nat) => Numbered(b, (h: nat) => Line(m, h)));
    assert ParseLine(line) == Numbered(b, (h: nat) => Line(n, h));
  }

  function ItemData(item: Item): FileData {
    match item
    case Fn(name, line) => NoData().(fns := Single(name, line))
    case FnHits(name, hits) => NoData().(fndas := Single(name, hits))
    case FnFound(n) => NoData().(fnf := n)
    case FnHit(n) => NoData().(fnh := n)
    case Line(line, hits) => NoData().(das := Single(line, hits))
    case LinesFound(n) => NoData().(lf := n)
    case LinesHit(n) => NoData().(lh := n)
    case BranchesFound(n) => NoData().(brf := n)
    case BranchesHit(n) => NoData().(brh := n)
    case _ => NoData()
  }

  // ---------------------------------------------------------------- one record

  /** The file a record names, the last one when it names several; empty when it names none. */
  function FileOf(lines: seq<string>): string {
    if lines == [] then ""
    else
      var item := ParseLine(lines[|lines| - 1]);
      if item.File? then item.path else FileOf(lines[..|lines| - 1])
  }

  function DataOf(lines: seq<string>): FileData {
    if lines == [] then NoData()
    else MergeData(DataOf(lines[..|lines| - 1]), ItemData(ParseLine(lines[|lines| - 1])))
  }

  predicate WellFormed(lines: seq<string>) {
    forall i :: 0 <= i < |lines| ==> !ParseLine(lines[i]).Malformed?
  }

  function Lines(record: string): seq<string> {
    Split(record, "\n")
  }

  /** What a record adds to the map. */
  function Contribution(record: string): FileMap {
    var lines := Lines(record);
    if FileOf(lines) == "" then Empty() else Single(FileOf(lines), DataOf(lines))
  }

  function Collect(records: seq<string>): FileMap {
    if records == [] then Empty()
    else MergeMaps(Collect(records[..|records| - 1]), Contribution(records[|records| - 1]))
  }

  function Records(content: string): seq<string> {
    Split(content, END_OF_RECORD)
  }

  predicate Readable(records: seq<string>) {
    forall i :: 0 <= i < |records| ==> WellFormed(Lines(records[i]))
  }

  /** The parse of a whole text. */
  function Parse(content: string): Option<FileMap> {
    if Readable(Records(content)) then Some(Collect(Records(content))) else None
  }

  // ---------------------------------------------------------------- the algebra of merging

  lemma NumbersCombine()
    ensures Associative(Max) && Idempotent(Max) && Commutative(Max)
    ensures Associative(Last) && Idempotent(Last)
  {
  }

  lemma DataAssociative(a: FileData, b: FileData, c: FileData)
    ensures MergeData(MergeData(a, b), c) == MergeData(a, MergeData(b, c))
  {
    NumbersCombine();
    MergeAssociative(Last, a.fns, b.fns, c.fns);
    MergeAssociative(Max, a.fndas, b.fndas, c.fndas);
    MergeAssociative(Max, a.das, b.das, c.das);
  }

  lemma DataCombines()
    ensures Associative(MergeData) && Idempotent(MergeData)
  {
    forall a, b, c
      ensures MergeData(MergeData(a, b), c) == MergeData(a, MergeData(b, c))
    {
      DataAssociative(a, b, c);
    }
    forall a
      ensures MergeData(a, a) == a
    {
      NumbersCombine();
      MergeIdempotent(Last, a.fns);
      MergeIdempotent(Max, a.fndas);
      MergeIdempotent(Max, a.das);
    }
  }

  lemma NoDataIsNeutral(a: FileData)
    ensures MergeData(NoData(), a) == a
    ensures MergeData(a, NoData()) == a
  {
    MergeEmpty(Last, a.fns);
    MergeEmpty(Max, a.fndas);
    MergeEmpty(Max, a.das);
  }

  /** Merging coverage is associative. */
  lemma MapsAssociative(a: FileMap, b: FileMap, c: FileMap)
    ensures MergeMaps(MergeMaps(a, b), c) == MergeMaps(a, MergeMaps(b, c))
  {
    DataCombines();
    MergeAssociative(MergeData, a, b, c);
  }

  /** Merging a map with itself changes nothing. */
  lemma MapsIdempotent(a: FileMap)
    ensures MergeMaps(a, a) == a
  {
    DataCombines();
    MergeIdempotent(MergeData, a);
  }

  // ---------------------------------------------------------------- what does not depend on the order

  /** Hits and totals of one file, without the order of its entries and without function lines. */
  datatype Hits = Hits(fndas: map<string, nat>, das: map<nat, nat>,
                       fnf: nat, fnh: nat, lf: nat, lh: nat, brf: nat, brh: nat)

  ghost function HitsOf(d: FileData): Hits {
    Hits(d.fndas.values, d.das.values, d.fnf, d.fnh, d.lf, d.lh, d.brf, d.brh)
  }

  ghost function AllHits(m: FileMap): map<string, Hits> {
    map path | path in m.values :: HitsOf(m.values[path])
  }

  ghost function MergeHits(a: Hits, b: Hits): Hits {
    Hits(MergeValues(Max, a.fndas, b.fndas), MergeValues(Max, a.das, b.das),
         Max(a.fnf, b.fnf), Max(a.fnh, b.fnh), Max(a.lf, b.lf), Max(a.lh, b.lh), Max(a.brf, b.brf), Max(a.brh, b.brh))
  }

  lemma HitsMerge(a: FileMap, b: FileMap)
    ensures AllHits(MergeMaps(a, b)) == MergeValues(MergeHits, AllHits(a), AllHits(b))
  {
  }

  lemma HitsCombine()
    ensures Commutative(MergeHits) && Associative(MergeHits)
  {
    forall a, b
      ensures MergeHits(a, b) == MergeHits(b, a)
    {
      assert MergeValues(Max, a.fndas, b.fndas) == MergeValues(Max, b.fndas, a.fndas);
      assert MergeValues(Max, a.das, b.das) == MergeValues(Max, b.das, a.das);
    }
    forall a, b, c
      ensures MergeHits(MergeHits(a, b), c) == MergeHits(a, MergeHits(b, c))
    {
      ValuesAssociative(Max, a.fndas, b.fndas, c.fndas);
      ValuesAssociative(Max, a.das, b.das, c.das);
    }
  }

  lemma ValuesAssociative<K, V(!new)>(op: Combine<V>, a: map<K, V>, b: map<K, V>, c: map<K, V>)
    requires forall x, y, z :: op(op(x, y), z) == op(x, op(y, z))
    ensures MergeValues(op, MergeValues(op, a, b), c) == MergeValues(op, a, MergeValues(op, b, c))
  {
  }

  ghost function MergeAll(parts: seq<FileMap>): FileMap {
    if parts == [] then Empty() else MergeMaps(parts[0], MergeAll(parts[1..]))
  }

  lemma {:induction false} MoveToFront(parts: seq<FileMap>, i: nat)
    requires i < |parts|
    ensures AllHits(MergeAll(parts)) == AllHits(MergeMaps(parts[i], MergeAll(parts[..i] + parts[i + 1..])))
  {
    hide AllHits, MergeMaps, MergeHits, MergeValues;
    var others := parts[..i] + parts[i + 1..];
    if i == 0 {
      assert others == parts[1..];
    } else {
      MoveToFront(parts[1..], i - 1);
      assert others[1..] == parts[1..][..i - 1] + parts[1..][i..] && others[0] == parts[0];
      var rest := MergeAll(others[1..]);
      HitsMerge(parts[0], MergeAll(parts[1..]));
      HitsMerge(parts[i], rest);
      HitsMerge(parts[0], rest);
      HitsMerge(parts[i], MergeMaps(parts[0], rest));
      SwapFirst(AllHits(parts[0]), AllHits(parts[i]), AllHits(rest));
    }
  }

  lemma SwapFirst(a: map<string, Hits>, b: map<string, Hits>, c: map<string, Hits>)
    ensures MergeValues(MergeHits, a, MergeValues(MergeHits, b, c))
            == MergeValues(MergeHits, b, MergeValues(MergeHits, a, c))
  {
    HitsCombine();
    ValuesAssociative(MergeHits, a, b, c);
    ValuesAssociative(MergeHits, b, a, c);
    assert MergeValues(MergeHits, a, b) == MergeValues(MergeHits, b, a);
  }

  /** The hits and totals of a merge do not depend on the order of the parts. */
  lemma {:induction false} OrderDoesNotMatter(parts: seq<FileMap>, others: seq<FileMap>)
    requires multiset(parts) == multiset(others)
    ensures AllHits(MergeAll(parts)) == AllHits(MergeAll(others))
    decreases |parts|
  {
    hide AllHits, MergeMaps, MergeHits, MergeValues;
    assert |parts| == |multiset(parts)| == |multiset(others)| == |others|;
    if parts != [] {
      assert parts[0] in multiset(others);
      var i :| 0 <= i < |others| && others[i] == parts[0];
      var rest := others[..i] + others[i + 1..];
      RemoveOne(others, i);
      RemoveOne(parts, 0);
      assert parts[..0] + parts[1..] == parts[1..];
      OrderDoesNotMatter(parts[1..], rest);
      MoveToFront(others, i);
      HitsMerge(parts[0], MergeAll(parts[1..]));
      HitsMerge(parts[0], MergeAll(rest));
    } else {
      assert others == [];
    }
  }

  /** No hit is lost, and none is made up: a merged line count is reached by some part and exceeded
      by none. */
  lemma {:induction false} NoHitLost(parts: seq<FileMap>, path: string, line: nat)
    ensures var merged := LineHits(MergeAll(parts), path, line);
            && (forall i :: 0 <= i < |parts| ==> AtMost(LineHits(parts[i], path, line), merged))
            && (merged.Some? ==> exists i :: 0 <= i < |parts| && LineHits(parts[i], path, line) == merged)
  {
    if parts != [] {
      NoHitLost(parts[1..], path, line);
      var first, rest := LineHits(parts[0], path, line), LineHits(MergeAll(parts[1..]), path, line);
      LineHitsMerge(parts[0], MergeAll(parts[1..]), path, line);
      forall i | 0 <= i < |parts|
        ensures AtMost(LineHits(parts[i], path, line), LineHits(MergeAll(parts), path, line))
      {
        if i > 0 { assert parts[i] == parts[1..][i - 1]; }
      }
      if rest.Some? {
        var i :| 0 <= i < |parts[1..]| && LineHits(parts[1..][i], path, line) == rest;
        assert parts[i + 1] == parts[1..][i];
      }
    }
  }

  /** Of the lines at which the parts say a function begins, the last part's stays. */
  lemma {:induction false} NewestFnStays(parts: seq<FileMap>, path: string, name: string)
    ensures var merged := FnLine(MergeAll(parts), path, name);
            && (merged.Some? ==> exists i :: 0 <= i < |parts| && SaysLast(parts, i, path, name, merged))
            && (merged.None? ==> forall i :: 0 <= i < |parts| ==> FnLine(parts[i], path, name).None?)
  {
    hide MergeMaps;
    if parts != [] {
      var rest := parts[1..];
      NewestFnStays(rest, path, name);
      FnLineMerge(parts[0], MergeAll(rest), path, name);
      var merged := FnLine(MergeAll(parts), path, name);
      assert forall i :: 0 < i < |parts| ==> parts[i] == rest[i - 1];
      if FnLine(MergeAll(rest), path, name).Some? {
        var i :| 0 <= i < |rest| && SaysLast(rest, i, path, name, merged);
        assert SaysLast(parts, i + 1, path, name, merged);
      } else if merged.Some? {
        assert SaysLast(parts, 0, path, name, merged);
      }
    }
  }

  ghost predicate SaysLast(parts: seq<FileMap>, i: nat, path: string, name: string, line: Option<nat>) {
    && i < |parts| && FnLine(parts[i], path, name) == line
    && forall j :: i < j < |parts| ==> FnLine(parts[j], path, name).None?
  }

  lemma FnLineMerge(a: FileMap, b: FileMap, path: string, name: string)
    ensures FnLine(MergeMaps(a, b), path, name)
         == if FnLine(b, path, name).Some? then FnLine(b, path, name) else FnLine(a, path, name)
  {
  }

  /** The hits of a line, if the map has that line. */
  function LineHits(m: FileMap, path: string, line: nat): Option<nat> {
    if path in m.values && line in m.values[path].das.values then Some(m.values[path].das.values[line]) else None
  }

  function FnLine(m: FileMap, path: string, name: string): Option<nat> {
    if path in m.values && name in m.values[path].fns.values then Some(m.values[path].fns.values[name]) else None
  }

  predicate AtMost(a: Option<nat>, b: Option<nat>) {
    a.None? || (b.Some? && a.value <= b.value)
  }

  lemma LineHitsMerge(a: FileMap, b: FileMap, path: string, line: nat)
    ensures var x, y := LineHits(a, path, line), LineHits(b, path, line);
            LineHits(MergeMaps(a, b), path, line)
            == if x.Some? && y.Some? then Some(Max(x.value, y.value)) else if x.Some? then x else y
  {
  }

  // ---------------------------------------------------------------- parsing parts of a text

  lemma {:induction false} DataConcat(a: seq<string>, b: seq<string>)
    ensures DataOf(a + b) == MergeData(DataOf(a), DataOf(b))
  {
    if b == [] {
      assert a + b == a;
      NoDataIsNeutral(DataOf(a));
    } else {
      var n := |b| - 1;
      DataConcat(a, b[..n]);
      assert (a + b)[..|a + b| - 1] == a + b[..n] && (a + b)[|a + b| - 1] == b[n];
      DataAssociative(DataOf(a), DataOf(b[..n]), ItemData(ParseLine(b[n])));
    }
  }

  lemma {:induction false} FileConcat(a: seq<string>, b: seq<string>)
    ensures FileOf(a + b) == if exists i :: 0 <= i < |b| && ParseLine(b[i]).File? then FileOf(b) else FileOf(a)
  {
    if b == [] {
      assert a + b == a;
    } else {
      var n := |b| - 1;
      FileConcat(a, b[..n]);
      assert (a + b)[..|a + b| - 1] == a + b[..n] && (a + b)[|a + b| - 1] == b[n];
      if i :| 0 <= i < n && ParseLine(b[i]).File? { assert b[..n][i] == b[i]; }
    }
  }

  lemma {:induction false} CollectConcat(a: seq<string>, b: seq<string>)
    ensures Collect(a + b) == MergeMaps(Collect(a), Collect(b))
  {
    if b == [] {
      assert a + b == a;
      MergeEmpty(MergeData, Collect(a));
    } else {
      var n := |b| - 1;
      CollectConcat(a, b[..n]);
      assert (a + b)[..|a + b| - 1] == a + b[..n] && (a + b)[|a + b| - 1] == b[n];
      MapsAssociative(Collect(a), Collect(b[..n]), Contribution(b[n]));
    }
  }

  /** The white space `trim` removes. */
  /** White space as `trim` has it, by its code points. */
  ghost predicate IsTrimmed(c: char) {
    var n := c as int;
    || 0x9 <= n <= 0xD || n == 0x20 || n == 0xA0 || n == 0x1680 || 0x2000 <= n <= 0x200A
    || n == 0x2028 || n == 0x2029 || n == 0x202F || n == 0x205F || n == 0x3000 || n == 0xFEFF
  }

  predicate IsSpace(c: char): (space: bool)
    ensures space <==> IsTrimmed(c)
  {
    c in [' ', '\t', '\n', '\r', '\U{000B}', '\U{000C}', '\U{00A0}', '\U{FEFF}', '\U{1680}',
          '\U{2028}', '\U{2029}', '\U{202F}', '\U{205F}', '\U{3000}']
    || '\U{2000}' <= c <= '\U{200A}'
  }

  predicate Blank(s: string): (blank: bool)
    ensures blank <==> forall i :: 0 <= i < |s| ==> IsTrimmed(s[i])
  {
    forall i :: 0 <= i < |s| ==> IsSpace(s[i])
  }

  lemma BlankLineSaysNothing(line: string)
    requires Blank(line)
    ensures ParseLine(line) == Ignored
  {
    assert line != "" ==> IsSpace(line[0]);
  }

  lemma {:induction false} BlankSplits(s: string)
    requires Blank(s)
    ensures forall i :: 0 <= i < |Lines(s)| ==> Blank(Lines(s)[i])
  {
    if s == "" {
    } else if "\n" <= s {
      BlankSplits(s[1..]);
      assert Lines(s) == [""] + Lines(s[1..]);
    } else {
      BlankSplits(s[1..]);
      var rest := Lines(s[1..]);
      assert Lines(s) == [[s[0]] + rest[0]] + rest[1..];
    }
  }

  /** Lines that say nothing in front of a record change nothing. */
  lemma BlankRecord(s: string)
    requires Blank(s)
    ensures WellFormed(Lines(s)) && Contribution(s) == Empty()
    ensures FileOf(Lines(s)) == "" && DataOf(Lines(s)) == NoData()
  {
    BlankSplits(s);
    forall i | 0 <= i < |Lines(s)|
      ensures ParseLine(Lines(s)[i]) == Ignored
    {
      BlankLineSaysNothing(Lines(s)[i]);
    }
    SaysNothing(Lines(s));
  }

  lemma {:induction false} SaysNothing(lines: seq<string>)
    requires forall i :: 0 <= i < |lines| ==> ParseLine(lines[i]) == Ignored
    ensures FileOf(lines) == "" && DataOf(lines) == NoData()
  {
    if lines != [] {
      SaysNothing(lines[..|lines| - 1]);
      NoDataIsNeutral(NoData());
    }
  }

  lemma {:induction false} LinesConcat(a: string, b: string)
    ensures Lines(a + "\n" + b) == Lines(a) + Lines(b)
    decreases |a|
  {
    var s := a + "\n" + b;
    if a == "" {
      assert s == "\n" + b && s[1..] == b && "\n" <= s;
    } else {
      assert s[1..] == a[1..] + "\n" + b && s[0] == a[0];
      LinesConcat(a[1..], b);
      assert "\n" <= s <==> "\n" <= a;
    }
  }

  /** A blank start, ended by a newline, is as good as none. */
  lemma BlankStart(blank: string, record: string)
    requires Blank(blank)
    ensures Contribution(blank + "\n" + record) == Contribution(record)
    ensures WellFormed(Lines(blank + "\n" + record)) <==> WellFormed(Lines(record))
  {
    LinesConcat(blank, record);
    BlankRecord(blank);
    hide Split, DataOf, FileOf, ParseLine, MergeData;
    var a, b := Lines(blank), Lines(record);
    DataConcat(a, b);
    NoDataIsNeutral(DataOf(b));
    FileConcat(a, b);
    if forall i :: 0 <= i < |b| ==> !ParseLine(b[i]).File? { NoFile(b); }
    WellFormedConcat(a, b);
  }

  lemma {:induction false} NoFile(lines: seq<string>)
    requires forall i :: 0 <= i < |lines| ==> !ParseLine(lines[i]).File?
    ensures FileOf(lines) == ""
  {
    if lines != [] { NoFile(lines[..|lines| - 1]); }
  }

  lemma WellFormedConcat(a: seq<string>, b: seq<string>)
    ensures WellFormed(a + b) <==> WellFormed(a) && WellFormed(b)
  {
    assert forall i :: 0 <= i < |a| ==> (a + b)[i] == a[i];
    assert forall i :: 0 <= i < |b| ==> (a + b)[|a| + i] == b[i];
  }

  /** Nothing but white space follows the last end of record. */
  predicate Closed(content: string) {
    Blank(Records(content)[|Records(content)| - 1])
  }

  lemma ReadableConcat(a: seq<string>, b: seq<string>)
    ensures Readable(a + b) <==> Readable(a) && Readable(b)
  {
    assert forall i :: 0 <= i < |a| ==> (a + b)[i] == a[i];
    assert forall i :: 0 <= i < |b| ==> (a + b)[|a| + i] == b[i];
  }

  lemma CollectOne(record: string)
    ensures Collect([record]) == Contribution(record)
    ensures Readable([record]) <==> WellFormed(Lines(record))
  {
    hide Contribution;
    assert [record][..0] == [];
    MergeEmpty(MergeData, Contribution(record));
  }

  /** The records of two texts with a newline between them. */
  lemma JoinedRecords(a: string, b: string)
    ensures Records(a + "\n" + b) == Glue(Records(a), '\n', Records(b))
  {
    SplitAcross(a, '\n', b, END_OF_RECORD);
  }

  lemma GluedRecords(left: seq<string>, right: seq<string>)
    requires left != [] && right != [] && Blank(left[|left| - 1])
    ensures Collect(Glue(left, '\n', right)) == MergeMaps(Collect(left), Collect(right))
    ensures Readable(Glue(left, '\n', right)) <==> Readable(left) && Readable(right)
  {
    hide Collect, Contribution, WellFormed, MergeMaps, Split;
    var init, blank, head, tail := left[..|left| - 1], left[|left| - 1], right[0], right[1..];
    var glued := blank + "\n" + head;
    assert glued == blank + ['\n'] + head;
    assert Glue(left, '\n', right) == init + ([glued] + tail);
    assert left == init + [blank] && right == [head] + tail;
    BlankStart(blank, head);
    BlankRecord(blank);
    CollectOne(blank);
    CollectOne(head);
    CollectOne(glued);
    CollectConcat(init, [blank]);
    CollectConcat([head], tail);
    CollectConcat(init, [glued] + tail);
    CollectConcat([glued], tail);
    ReadableConcat(init, [blank]);
    ReadableConcat([head], tail);
    ReadableConcat(init, [glued] + tail);
    ReadableConcat([glued], tail);
    MergeEmptyMap(Collect(init));
  }

  lemma MergeEmptyMap(m: FileMap)
    ensures MergeMaps(m, Empty()) == m && MergeMaps(Empty(), m) == m
  {
    MergeEmpty(MergeData, m);
  }

  ghost function MergeParsed(a: Option<FileMap>, b: Option<FileMap>): Option<FileMap> {
    if a.Some? && b.Some? then Some(MergeMaps(a.value, b.value)) else None
  }

  /** Parsing is a homomorphism: the text of one file, a newline and another text parse to the merge
      of the two parses, when nothing follows the last record of the first. */
  lemma ParseJoined(a: string, b: string)
    requires Closed(a)
    ensures Parse(a + "\n" + b) == MergeParsed(Parse(a), Parse(b))
  {
    hide Collect, Split;
    JoinedRecords(a, b);
    GluedRecords(Records(a), Records(b));
  }

  // ---------------------------------------------------------------- concatenating the parts

  /** What the part files are concatenated to. */
  function Concatenated(parts: seq<string>): string {
    if parts == [] then "" else parts[0] + "\n" + Concatenated(parts[1..])
  }

  ghost function ParseAll(parts: seq<string>): seq<FileMap>
    requires forall i :: 0 <= i < |parts| ==> Parse(parts[i]).Some?
  {
    seq(|parts|, i requires 0 <= i < |parts| => Parse(parts[i]).value)
  }

  /** Concatenating closed parts and parsing once is parsing each and merging. */
  lemma {:induction false} ParseConcatenated(parts: seq<string>)
    requires forall i :: 0 <= i < |parts| ==> Closed(parts[i]) && Parse(parts[i]).Some?
    ensures Parse(Concatenated(parts)) == Some(MergeAll(ParseAll(parts)))
  {
    hide Closed, Parse;
    if parts == [] {
      ParseNothing();
    } else {
      ParseConcatenated(parts[1..]);
      ParseJoined(parts[0], Concatenated(parts[1..]));
      assert ParseAll(parts)[1..] == ParseAll(parts[1..]);
    }
  }

  lemma ParseNothing()
    ensures Parse("") == Some(Empty())
  {
    assert Records("") == [""] && Lines("") == [""];
    BlankRecord("");
    CollectOne("");
  }

  // ---------------------------------------------------------------- the code that reads and merges

  lemma NoDataIsValid()
    ensures ValidData(NoData())
  {
  }

  ghost predicate ValidData(d: FileData) {
    Valid(d.fns) && Valid(d.fndas) && Valid(d.das)
  }

  ghost predicate ValidMap(m: FileMap) {
    Valid(m) && forall path :: path in m.values ==> ValidData(m.values[path])
  }

  lemma MergeDataValid(a: FileData, b: FileData)
    requires ValidData(a) && ValidData(b)
    ensures ValidData(MergeData(a, b))
  {
    MergeKeepsValid(Last, a.fns, b.fns);
    MergeKeepsValid(Max, a.fndas, b.fndas);
    MergeKeepsValid(Max, a.das, b.das);
  }

  lemma MergeMapsValid(a: FileMap, b: FileMap)
    requires ValidMap(a) && ValidMap(b)
    ensures ValidMap(MergeMaps(a, b))
  {
    MergeKeepsValid(MergeData, a, b);
    forall path | path in a.values && path in b.values
      ensures ValidData(MergeData(a.values[path], b.values[path]))
    {
      MergeDataValid(a.values[path], b.values[path]);
    }
  }

  lemma ItemDataIsValid(item: Item)
    ensures ValidData(ItemData(item))
  {
  }

  lemma {:induction false} DataIsValid(lines: seq<string>)
    ensures ValidData(DataOf(lines))
  {
    hide ValidData, MergeData, ParseLine, ItemData;
    if lines == [] {
      NoDataIsValid();
    } else {
      DataIsValid(lines[..|lines| - 1]);
      ItemDataIsValid(ParseLine(lines[|lines| - 1]));
      MergeDataValid(DataOf(lines[..|lines| - 1]), ItemData(ParseLine(lines[|lines| - 1])));
    }
  }

  lemma ContributionIsValid(record: string)
    ensures ValidMap(Contribution(record))
  {
    hide ValidData, DataOf, FileOf, Lines;
    DataIsValid(Lines(record));
  }

  lemma {:induction false} CollectIsValid(records: seq<string>)
    ensures ValidMap(Collect(records))
  {
    hide ValidData, MergeMaps, Contribution;
    if records != [] {
      CollectIsValid(records[..|records| - 1]);
      ContributionIsValid(records[|records| - 1]);
      MergeMapsValid(Collect(records[..|records| - 1]), Contribution(records[|records| - 1]));
    }
  }

  /** One line changes one field of the record read so far. */
  method ReadLine(fileData: FileData, item: Item) returns (updated: FileData)
    requires ValidData(fileData)
    ensures updated == MergeData(fileData, ItemData(item)) && ValidData(updated)
  {
    LineChanges(fileData, item);
    MergeDataValid(fileData, ItemData(item));
    match item {
      case Fn(name, line) => updated := fileData.(fns := Put(Last, fileData.fns, name, line));
      case FnHits(name, hits) => updated := fileData.(fndas := Put(Max, fileData.fndas, name, hits));
      case FnFound(n) => updated := fileData.(fnf := Max(fileData.fnf, n));
      case FnHit(n) => updated := fileData.(fnh := Max(fileData.fnh, n));
      case Line(line, hits) => updated := fileData.(das := Put(Max, fileData.das, line, hits));
      case LinesFound(n) => updated := fileData.(lf := Max(fileData.lf, n));
      case LinesHit(n) => updated := fileData.(lh := Max(fileData.lh, n));
      case BranchesFound(n) => updated := fileData.(brf := Max(fileData.brf, n));
      case BranchesHit(n) => updated := fileData.(brh := Max(fileData.brh, n));
      case _ => updated := fileData;
    }
  }

  lemma LineChanges(d: FileData, item: Item)
    requires ValidData(d)
    ensures ValidData(ItemData(item))
    ensures MergeData(d, NoData()) == d
    ensures item.Fn? ==> Merge(Last, d.fns, ItemData(item).fns) == Put(Last, d.fns, item.name, item.line)
    ensures item.FnHits? ==> Merge(Max, d.fndas, ItemData(item).fndas) == Put(Max, d.fndas, item.name, item.hits)
    ensures item.Line? ==> Merge(Max, d.das, ItemData(item).das) == Put(Max, d.das, item.line, item.hits)
  {
    hide Merge, Put;
    NoDataIsNeutral(d);
    match item {
      case Fn(name, line) => PutIsMerge(Last, d.fns, name, line);
      case FnHits(name, hits) => PutIsMerge(Max, d.fndas, name, hits);
      case Line(line, hits) => PutIsMerge(Max, d.das, line, hits);
      case _ =>
    }
  }

  /** Reads the lines of one record; None when a number on some line is not decimal. */
  method ReadRecord(record: string) returns (currentFile: string, fileData: FileData, readable: bool)
    ensures readable <==> WellFormed(Lines(record))
    ensures readable
            ==> currentFile == FileOf(Lines(record)) && fileData == DataOf(Lines(record)) && ValidData(fileData)
  {
    hide ParseLine, MergeData, Split;
    var lines := Lines(record);
    currentFile, fileData, readable := "", NoData(), true;
    NoDataIsValid();
    for i := 0 to |lines|
      invariant readable ==> WellFormed(lines[..i])
      invariant !readable ==> !WellFormed(lines)
      invariant currentFile == FileOf(lines[..i]) && fileData == DataOf(lines[..i]) && ValidData(fileData)
    {
      var item := ParseLine(lines[i]);
      var before := lines[..i + 1];
      assert before[..|before| - 1] == lines[..i] && before[|before| - 1] == lines[i];
      if item.Malformed? {
        readable := false;
      }
      if item.File? {
        currentFile := item.path;
      }
      fileData := ReadLine(fileData, item);
    }
    assert lines[..|lines|] == lines;
  }

  /** Merges the data of one file into what is already there, map by map. */
  method MergeFile(existing: FileData, newData: FileData) returns (merged: FileData)
    requires ValidData(existing) && ValidData(newData)
    ensures merged == MergeData(existing, newData) && ValidData(merged)
  {
    NumbersCombine();
    var fns := MergeEntries(Last, existing.fns, newData.fns);
    var fndas := MergeEntries(Max, existing.fndas, newData.fndas);
    var das := MergeEntries(Max, existing.das, newData.das);
    merged := FileData(fns, fndas, das, Max(existing.fnf, newData.fnf), Max(existing.fnh, newData.fnh),
                       Max(existing.lf, newData.lf), Max(existing.lh, newData.lh),
                       Max(existing.brf, newData.brf), Max(existing.brh, newData.brh));
  }

  /** Puts the data of one file into the map. */
  method PutFile(fileMap: FileMap, path: string, data: FileData) returns (updated: FileMap)
    requires ValidMap(fileMap) && ValidData(data)
    ensures updated == MergeMaps(fileMap, Single(path, data)) && ValidMap(updated)
  {
    PutIsMerge(MergeData, fileMap, path, data);
    MergeMapsValid(fileMap, Single(path, data));
    if path in fileMap.values {
      var merged := MergeFile(fileMap.values[path], data);
      updated := Table(fileMap.keys, fileMap.values[path := merged]);
    } else {
      updated := Table(fileMap.keys + [path], fileMap.values[path := data]);
    }
  }

  method ParseLcov(content: string) returns (fileMap: Option<FileMap>)
    ensures fileMap == Parse(content)
    ensures fileMap.Some? ==> ValidMap(fileMap.value)
  {
    hide FileOf, DataOf, MergeMaps, Split, WellFormed;
    var records := Records(content);
    var found: FileMap := Empty();
    var readable := true;
    for i := 0 to |records|
      invariant readable <==> Readable(records[..i])
      invariant readable ==> found == Collect(records[..i])
      invariant ValidMap(found)
    {
      ReadableConcat(records[..i], [records[i]]);
      CollectConcat(records[..i], [records[i]]);
      CollectOne(records[i]);
      assert records[..i + 1] == records[..i] + [records[i]];
      if Blank(records[i]) {
        BlankRecord(records[i]);
        MergeEmptyMap(found);
      } else {
        var currentFile, fileData, ok := ReadRecord(records[i]);
        if !ok {
          readable := false;
        } else if currentFile != "" {
          found := PutFile(found, currentFile, fileData);
        } else {
          MergeEmptyMap(found);
        }
      }
    }
    assert records[..|records|] == records;
    fileMap := if readable then Some(found) else None;
  }

  /** The merge loop of `mergeLcovFiles`. */
  method MergeFileMaps(existingMap: FileMap, newMap: FileMap) returns (merged: FileMap)
    requires ValidMap(existingMap) && ValidMap(newMap)
    ensures merged == MergeMaps(existingMap, newMap) && ValidMap(merged)
  {
    merged := existingMap;
    PrefixAll(newMap);
    MergeEmptyMap(existingMap);
    for i := 0 to |newMap.keys|
      invariant merged == MergeMaps(existingMap, Prefix(newMap, i)) && ValidMap(merged)
    {
      var path := newMap.keys[i];
      PrefixStep(MergeData, newMap, i);
      MapsAssociative(existingMap, Prefix(newMap, i), Single(path, newMap.values[path]));
      merged := PutFile(merged, path, newMap.values[path]);
    }
  }
}
