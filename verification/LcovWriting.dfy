/** Writing LCOV coverage files, and reading back what was written. */
module LcovWriting {

  import opened Common
  import opened OrderedMap
  import opened Text
  import opened Lcov

  // ---------------------------------------------------------------- writing

  function InsertSorted(sorted: seq<nat>, n: nat): seq<nat> {
    if sorted == [] then [n]
    else if n <= sorted[0] then [n] + sorted
    else [sorted[0]] + InsertSorted(sorted[1..], n)
  }

  /** Line numbers in ascending order. */
  function SortLines(lines: seq<nat>): seq<nat> {
    if lines == [] then [] else InsertSorted(SortLines(lines[1..]), lines[0])
  }

  /** How many of the keys have a value above zero. */
  function CountHit<K>(keys: seq<K>, values: map<K, nat>): nat
    requires forall i :: 0 <= i < |keys| ==> keys[i] in values
  {
    if keys == [] then 0 else (if values[keys[0]] > 0 then 1 else 0) + CountHit(keys[1..], values)
  }

  function PrintFns(keys: seq<string>, values: map<string, nat>): seq<string>
    requires forall i :: 0 <= i < |keys| ==> keys[i] in values
  {
    seq(|keys|, i requires 0 <= i < |keys| => "FN:" + Decimal(values[keys[i]]) + "," + keys[i])
  }

  function PrintFndas(keys: seq<string>, values: map<string, nat>): seq<string>
    requires forall i :: 0 <= i < |keys| ==> keys[i] in values
  {
    seq(|keys|, i requires 0 <= i < |keys| => "FNDA:" + Decimal(values[keys[i]]) + "," + keys[i])
  }

  function PrintDas(keys: seq<nat>, values: map<nat, nat>): seq<string>
    requires forall i :: 0 <= i < |keys| ==> keys[i] in values
  {
    seq(|keys|, i requires 0 <= i < |keys| => "DA:" + Decimal(keys[i]) + "," + Decimal(values[keys[i]]))
  }

  lemma {:induction false} InsertKeeps(sorted: seq<nat>, n: nat)
    ensures multiset(InsertSorted(sorted, n)) == multiset(sorted) + multiset{n}
  {
    if sorted != [] {
      HeadTail(sorted, []);
      InsertKeeps(sorted[1..], n);
    }
  }

  lemma {:induction false} SortKeeps(lines: seq<nat>)
    ensures multiset(SortLines(lines)) == multiset(lines)
    ensures forall n :: n in SortLines(lines) <==> n in lines
  {
    if lines != [] {
      SortKeeps(lines[1..]);
      InsertKeeps(SortLines(lines[1..]), lines[0]);
      HeadTail(lines, []);
    }
    assert forall n :: n in SortLines(lines) <==> n in multiset(SortLines(lines));
    assert forall n :: n in lines <==> n in multiset(lines);
  }

  /** The totals of a record as they are written: never below what its entries show. */
  ghost function Normalized(d: FileData): FileData
    requires ValidData(d)
  {
    d.(das := Table(SortLines(d.das.keys), d.das.values),
       fnh := Max(d.fnh, CountHit(d.fndas.keys, d.fndas.values)),
       lf := Max(d.lf, |d.das.keys|),
       lh := Max(d.lh, CountHit(d.das.keys, d.das.values)),
       brh := if d.brf > 0 then d.brh else 0)
  }

  /** The lines of one file up to the end of its record. */
  ghost function PrintBody(path: string, d: FileData): seq<string>
    requires ValidData(d)
  {
    SortKeeps(d.das.keys);
    ["TN:", "SF:" + path]
    + PrintFns(d.fns.keys, d.fns.values)
    + ["FNF:" + Decimal(d.fnf), "FNH:" + Decimal(Max(d.fnh, CountHit(d.fndas.keys, d.fndas.values)))]
    + PrintFndas(d.fndas.keys, d.fndas.values)
    + PrintDas(SortLines(d.das.keys), d.das.values)
    + ["LF:" + Decimal(Max(d.lf, |d.das.keys|)), "LH:" + Decimal(Max(d.lh, CountHit(d.das.keys, d.das.values)))]
    + (if d.brf > 0 then ["BRF:" + Decimal(d.brf), "BRH:" + Decimal(d.brh)] else [])
  }

  ghost function PrintFiles(m: FileMap, n: nat): seq<string>
    requires ValidMap(m) && n <= |m.keys|
  {
    if n == 0 then []
    else PrintFiles(m, n - 1) + PrintBody(m.keys[n - 1], m.values[m.keys[n - 1]]) + [END_OF_RECORD]
  }

  /** The text written for a map. */
  ghost function Generate(m: FileMap): string
    requires ValidMap(m)
  {
    Join(PrintFiles(m, |m.keys|), "\n")
  }

  // ---------------------------------------------------------------- the code that writes

  method PushFns(before: seq<string>, keys: seq<string>, values: map<string, nat>) returns (output: seq<string>)
    requires forall i :: 0 <= i < |keys| ==> keys[i] in values
    ensures output == before + PrintFns(keys, values)
  {
    output := before;
    for i := 0 to |keys|
      invariant output == before + PrintFns(keys[..i], values)
    {
      output := output + ["FN:" + Decimal(values[keys[i]]) + "," + keys[i]];
    }
    assert keys[..|keys|] == keys;
  }

  method PushFndas(before: seq<string>, keys: seq<string>, values: map<string, nat>) returns (output: seq<string>)
    requires forall i :: 0 <= i < |keys| ==> keys[i] in values
    ensures output == before + PrintFndas(keys, values)
  {
    output := before;
    for i := 0 to |keys|
      invariant output == before + PrintFndas(keys[..i], values)
    {
      output := output + ["FNDA:" + Decimal(values[keys[i]]) + "," + keys[i]];
    }
    assert keys[..|keys|] == keys;
  }

  method PushDas(before: seq<string>, keys: seq<nat>, values: map<nat, nat>) returns (output: seq<string>)
    requires forall i :: 0 <= i < |keys| ==> keys[i] in values
    ensures output == before + PrintDas(keys, values)
  {
    output := before;
    for i := 0 to |keys|
      invariant output == before + PrintDas(keys[..i], values)
    {
      output := output + ["DA:" + Decimal(keys[i]) + "," + Decimal(values[keys[i]])];
    }
    assert keys[..|keys|] == keys;
  }

  method PrintRecord(path: string, data: FileData) returns (output: seq<string>)
    requires ValidData(data)
    ensures output == PrintBody(path, data) + ["end_of_record"]
  {
    hide Decimal, CountHit, PrintFns, PrintFndas, PrintDas, SortLines;
    SortKeeps(data.das.keys);
    output := ["TN:", "SF:" + path];
    output := PushFns(output, data.fns.keys, data.fns.values);
    var fnh := CountHit(data.fndas.keys, data.fndas.values);
    output := output + ["FNF:" + Decimal(data.fnf), "FNH:" + Decimal(Max(data.fnh, fnh))];
    output := PushFndas(output, data.fndas.keys, data.fndas.values);
    var sortedDas := SortLines(data.das.keys);
    output := PushDas(output, sortedDas, data.das.values);
    var lf := |data.das.keys|;
    var lh := CountHit(data.das.keys, data.das.values);
    output := output + ["LF:" + Decimal(Max(data.lf, lf)), "LH:" + Decimal(Max(data.lh, lh))];
    if data.brf > 0 {
      output := output + ["BRF:" + Decimal(data.brf), "BRH:" + Decimal(data.brh)];
    }
    output := output + [END_OF_RECORD];
  }

  method GenerateLcov(fileMap: FileMap) returns (text: string)
    requires ValidMap(fileMap)
    ensures text == Generate(fileMap)
  {
    hide PrintBody, ValidData, Join;
    var output: seq<string> := [];
    for i := 0 to |fileMap.keys|
      invariant output == PrintFiles(fileMap, i)
    {
      var path := fileMap.keys[i];
      var record := PrintRecord(path, fileMap.values[path]);
      output := output + record;
    }
    text := Join(output, "\n");
  }

  // ---------------------------------------------------------------- reading back what was written

  /** A name that fits on its line. */
  ghost predicate CleanName(name: string) {
    '\n' !in name && ',' !in name && Whole(name, "end_of_record")
  }

  ghost predicate CleanPath(path: string) {
    path != "" && '\n' !in path && Whole(path, "end_of_record")
  }

  ghost predicate CleanNames(names: seq<string>) {
    forall i :: 0 <= i < |names| ==> CleanName(names[i])
  }

  ghost predicate CleanMap(m: FileMap)
    requires ValidMap(m)
  {
    forall i :: 0 <= i < |m.keys| ==>
      && CleanPath(m.keys[i])
      && CleanNames(m.values[m.keys[i]].fns.keys) && CleanNames(m.values[m.keys[i]].fndas.keys)
  }

  /** A line that neither breaks nor ends a record. */
  ghost predicate CleanLine(line: string) {
    '\n' !in line && Whole(line, END_OF_RECORD)
  }

  lemma DecimalIsClean(n: nat)
    ensures ParseDecimal(Decimal(n)) == Some(n)
    ensures CleanName(Decimal(n))
  {
    DecimalRoundTrip(n);
    var s := Decimal(n);
    assert forall c :: c in s ==> IsDigit(c);
    WholeWithout(s, END_OF_RECORD);
  }

  lemma TagIsClean(tag: string)
    requires tag in {"TN", "SF", "FN", "FNDA", "FNF", "FNH", "DA", "LF", "LH", "BRF", "BRH"}
    ensures CleanLine(tag)
  {
    WholeWithout(tag, END_OF_RECORD);
  }

  lemma CleanAcross(a: string, c: char, b: string)
    requires CleanLine(a) && CleanLine(b) && c in [':', ',']
    ensures CleanLine(a + [c] + b)
  {
    assert c !in END_OF_RECORD;
    WholeAcross(a, c, b, END_OF_RECORD);
  }

  lemma TwoFields(a: string, b: string)
    requires ',' !in a && ',' !in b
    ensures Split(a + "," + b, ",") == [a, b]
  {
    SplitAt(a, ',', b);
    WholeLine(b, ',');
  }

  lemma EntryIsClean(tag: string, a: string, b: string)
    requires tag in {"FN", "FNDA", "DA"} && CleanName(a) && CleanName(b)
    ensures CleanLine(tag + ":" + a + "," + b)
  {
    hide Whole;
    TagIsClean(tag);
    CleanAcross(tag, ':', a);
    CleanAcross(tag + ":" + a, ',', b);
  }

  lemma FnLine(name: string, n: nat)
    requires CleanName(name)
    ensures ParseLine("FN:" + Decimal(n) + "," + name) == Fn(name, n)
    ensures CleanLine("FN:" + Decimal(n) + "," + name)
  {
    hide ParseLine, Whole, Split, Decimal, ParseDecimal;
    DecimalIsClean(n);
    EntryIsClean("FN", Decimal(n), name);
    TwoFields(Decimal(n), name);
    FnLineParses(Decimal(n), name, n);
    assert "FN" + ":" + Decimal(n) + "," + name == "FN:" + Decimal(n) + "," + name;
  }

  lemma FnLineParses(number: string, name: string, n: nat)
    requires ParseDecimal(number) == Some(n) && Split(number + "," + name, ",") == [number, name]
    ensures ParseLine("FN:" + number + "," + name) == Fn(name, n)
  {
    hide Split, ParseDecimal;
    var line := "FN:" + number + "," + name;
    assert line[3..] == number + "," + name;
    assert line[0] == 'F' && "FN:" <= line;
  }

  lemma FndaLine(name: string, n: nat)
    requires CleanName(name)
    ensures ParseLine("FNDA:" + Decimal(n) + "," + name) == FnHits(name, n)
    ensures CleanLine("FNDA:" + Decimal(n) + "," + name)
  {
    hide ParseLine, Whole, Split, Decimal, ParseDecimal;
    DecimalIsClean(n);
    EntryIsClean("FNDA", Decimal(n), name);
    TwoFields(Decimal(n), name);
    FndaLineParses(Decimal(n), name, n);
    assert "FNDA" + ":" + Decimal(n) + "," + name == "FNDA:" + Decimal(n) + "," + name;
  }

  lemma FndaLineParses(number: string, name: string, n: nat)
    requires ParseDecimal(number) == Some(n) && Split(number + "," + name, ",") == [number, name]
    ensures ParseLine("FNDA:" + number + "," + name) == FnHits(name, n)
  {
    hide Split, ParseDecimal;
    var line := "FNDA:" + number + "," + name;
    assert line[5..] == number + "," + name;
    assert line[0] == 'F' && line[2] == 'D' && "FNDA:" <= line;
  }

  lemma DaLine(n: nat, hits: nat)
    ensures ParseLine("DA:" + Decimal(n) + "," + Decimal(hits)) == Line(n, hits)
    ensures CleanLine("DA:" + Decimal(n) + "," + Decimal(hits))
  {
    hide ParseLine, Whole, Split, Decimal, ParseDecimal;
    DecimalIsClean(n);
    DecimalIsClean(hits);
    EntryIsClean("DA", Decimal(n), Decimal(hits));
    TwoFields(Decimal(n), Decimal(hits));
    DaLineParses(Decimal(n), Decimal(hits), n, hits);
    assert "DA" + ":" + Decimal(n) + "," + Decimal(hits) == "DA:" + Decimal(n) + "," + Decimal(hits);
  }

  lemma DaLineParses(number: string, count: string, n: nat, hits: nat)
    requires ParseDecimal(number) == Some(n) && ParseDecimal(count) == Some(hits)
    requires Split(number + "," + count, ",") == [number, count]
    ensures ParseLine("DA:" + number + "," + count) == Line(n, hits)
  {
    hide Split, ParseDecimal;
    var line := "DA:" + number + "," + count;
    assert line[3..] == number + "," + count;
    assert line[0] == 'D' && "DA:" <= line;
  }

  lemma TotalIsClean(tag: string, n: nat)
    requires tag in {"FNF", "FNH", "LF", "LH", "BRF", "BRH"}
    ensures CleanLine(tag + ":" + Decimal(n)) && ParseDecimal(Decimal(n)) == Some(n)
  {
    DecimalIsClean(n);
    TagIsClean(tag);
    CleanAcross(tag, ':', Decimal(n));
  }

  lemma FunctionTotals(text: string, n: nat)
    requires ParseDecimal(text) == Some(n)
    ensures ParseLine("FNF:" + text) == FnFound(n)
    ensures ParseLine("FNH:" + text) == FnHit(n)
  {
    hide ParseDecimal;
    var found, hit := "FNF:" + text, "FNH:" + text;
    assert found[4..] == text && hit[4..] == text;
    assert found[0] == 'F' && found[2] == 'F' && "FNF:" <= found;
    assert hit[0] == 'F' && hit[2] == 'H' && "FNH:" <= hit;
  }

  lemma LineTotals(text: string, n: nat)
    requires ParseDecimal(text) == Some(n)
    ensures ParseLine("LF:" + text) == LinesFound(n)
    ensures ParseLine("LH:" + text) == LinesHit(n)
  {
    hide ParseDecimal;
    var found, hit := "LF:" + text, "LH:" + text;
    assert found[3..] == text && hit[3..] == text;
    assert found[0] == 'L' && "LF:" <= found;
    assert hit[0] == 'L' && hit[1] == 'H' && "LH:" <= hit;
  }

  lemma BranchTotals(text: string, n: nat)
    requires ParseDecimal(text) == Some(n)
    ensures ParseLine("BRF:" + text) == BranchesFound(n)
    ensures ParseLine("BRH:" + text) == BranchesHit(n)
  {
    hide ParseDecimal;
    var found, hit := "BRF:" + text, "BRH:" + text;
    assert found[4..] == text && hit[4..] == text;
    assert found[0] == 'B' && "BRF:" <= found;
    assert hit[0] == 'B' && hit[2] == 'H' && "BRH:" <= hit;
  }

  ghost predicate CleanLines(lines: seq<string>) {
    forall i :: 0 <= i < |lines| ==> CleanLine(lines[i])
  }

  /** What lines say taken together: their data, no file, nothing malformed. */
  ghost predicate Says(lines: seq<string>, d: FileData) {
    && DataOf(lines) == d
    && CleanLines(lines)
    && forall i :: 0 <= i < |lines| ==> !ParseLine(lines[i]).File? && !ParseLine(lines[i]).Malformed?
  }

  lemma SaysConcat(a: seq<string>, x: FileData, b: seq<string>, y: FileData)
    requires Says(a, x) && Says(b, y)
    ensures Says(a + b, MergeData(x, y))
  {
    hide MergeData, DataOf, ParseLine, CleanLine;
    DataConcat(a, b);
    var c := a + b;
    forall i | 0 <= i < |c|
      ensures CleanLine(c[i]) && !ParseLine(c[i]).File? && !ParseLine(c[i]).Malformed?
    {
      assert c[i] == if i < |a| then a[i] else b[i - |a|];
    }
  }

  lemma SaysOne(line: string, item: Item)
    requires ParseLine(line) == item && !item.File? && !item.Malformed? && CleanLine(line)
    ensures Says([line], ItemData(item))
  {
    hide ParseLine, CleanLine;
    var lines := [line];
    assert lines[..|lines| - 1] == [] && lines[|lines| - 1] == line;
    assert DataOf([]) == NoData();
    NoDataIsNeutral(ItemData(item));
  }

  lemma SaysNone()
    ensures Says([], NoData())
  {
  }

  lemma {:induction false} FnsSay(t: Table<string, nat>, n: nat)
    requires Valid(t) && n <= |t.keys| && CleanNames(t.keys)
    ensures Says(PrintFns(t.keys[..n], t.values), NoData().(fns := Prefix(t, n)))
  {
    hide ParseLine, CleanLine, Decimal, CleanName, DataOf;
    if n == 0 {
      PrefixAll(t);
      SaysNone();
      assert PrintFns(t.keys[..0], t.values) == [];
    } else {
      var name := t.keys[n - 1];
      FnsSay(t, n - 1);
      FnLine(name, t.values[name]);
      var line := "FN:" + Decimal(t.values[name]) + "," + name;
      SaysOne(line, Fn(name, t.values[name]));
      SaysConcat(PrintFns(t.keys[..n - 1], t.values), NoData().(fns := Prefix(t, n - 1)), [line],
                 ItemData(Fn(name, t.values[name])));
      assert PrintFns(t.keys[..n], t.values) == PrintFns(t.keys[..n - 1], t.values) + [line];
      PrefixStep(Last, t, n - 1);
      FnsGrow(Prefix(t, n - 1), name, t.values[name]);
    }
  }

  lemma FnsGrow(t: Table<string, nat>, name: string, n: nat)
    ensures MergeData(NoData().(fns := t), ItemData(Fn(name, n))) == NoData().(fns := Merge(Last, t, Single(name, n)))
  {
    MergeEmpty(Max, NoData().fndas);
    MergeEmpty(Max, NoData().das);
  }

  lemma {:induction false} FndasSay(t: Table<string, nat>, n: nat)
    requires Valid(t) && n <= |t.keys| && CleanNames(t.keys)
    ensures Says(PrintFndas(t.keys[..n], t.values), NoData().(fndas := Prefix(t, n)))
  {
    hide ParseLine, CleanLine, Decimal, CleanName, DataOf;
    if n == 0 {
      PrefixAll(t);
      SaysNone();
      assert PrintFndas(t.keys[..0], t.values) == [];
    } else {
      var name := t.keys[n - 1];
      FndasSay(t, n - 1);
      FndaLine(name, t.values[name]);
      var line := "FNDA:" + Decimal(t.values[name]) + "," + name;
      SaysOne(line, FnHits(name, t.values[name]));
      SaysConcat(PrintFndas(t.keys[..n - 1], t.values), NoData().(fndas := Prefix(t, n - 1)), [line],
                 ItemData(FnHits(name, t.values[name])));
      assert PrintFndas(t.keys[..n], t.values) == PrintFndas(t.keys[..n - 1], t.values) + [line];
      PrefixStep(Max, t, n - 1);
      FndasGrow(Prefix(t, n - 1), name, t.values[name]);
    }
  }

  lemma FndasGrow(t: Table<string, nat>, name: string, n: nat)
    ensures MergeData(NoData().(fndas := t), ItemData(FnHits(name, n)))
            == NoData().(fndas := Merge(Max, t, Single(name, n)))
  {
    MergeEmpty(Last, NoData().fns);
    MergeEmpty(Max, NoData().das);
  }

  lemma {:induction false} DasSay(t: Table<nat, nat>, n: nat)
    requires Valid(t) && n <= |t.keys|
    ensures Says(PrintDas(t.keys[..n], t.values), NoData().(das := Prefix(t, n)))
  {
    hide ParseLine, CleanLine, Decimal, DataOf;
    if n == 0 {
      PrefixAll(t);
      SaysNone();
      assert PrintDas(t.keys[..0], t.values) == [];
    } else {
      var key := t.keys[n - 1];
      DasSay(t, n - 1);
      DaLine(key, t.values[key]);
      var line := "DA:" + Decimal(key) + "," + Decimal(t.values[key]);
      SaysOne(line, Line(key, t.values[key]));
      SaysConcat(PrintDas(t.keys[..n - 1], t.values), NoData().(das := Prefix(t, n - 1)), [line],
                 ItemData(Line(key, t.values[key])));
      assert PrintDas(t.keys[..n], t.values) == PrintDas(t.keys[..n - 1], t.values) + [line];
      PrefixStep(Max, t, n - 1);
      DasGrow(Prefix(t, n - 1), key, t.values[key]);
    }
  }

  lemma DasGrow(t: Table<nat, nat>, key: nat, n: nat)
    ensures MergeData(NoData().(das := t), ItemData(Line(key, n))) == NoData().(das := Merge(Max, t, Single(key, n)))
  {
    MergeEmpty(Last, NoData().fns);
    MergeEmpty(Max, NoData().fndas);
  }

  // ---------------------------------------------------------------- one written record

  lemma SortedTable(t: Table<nat, nat>)
    requires Valid(t)
    ensures Valid(Table(SortLines(t.keys), t.values)) && |SortLines(t.keys)| == |t.keys|
  {
    var sorted := SortLines(t.keys);
    SortKeeps(t.keys);
    assert |multiset(sorted)| == |multiset(t.keys)|;
    DistinctByCount(t.keys);
    CountsDistinct(sorted);
  }

  lemma {:induction false} DistinctByCount(s: seq<nat>)
    requires Distinct(s)
    ensures forall n :: multiset(s)[n] <= 1
  {
    if s != [] {
      DistinctByCount(s[1..]);
      HeadTail(s, []);
      assert s[0] !in s[1..];
      assert s[0] !in multiset(s[1..]);
      assert multiset(s) == multiset{s[0]} + multiset(s[1..]);
    }
  }

  lemma {:induction false} CountsDistinct(s: seq<nat>)
    requires forall n :: multiset(s)[n] <= 1
    ensures Distinct(s)
  {
    if s != [] {
      HeadTail(s, []);
      assert multiset(s) == multiset{s[0]} + multiset(s[1..]);
      assert multiset(s)[s[0]] <= 1;
      assert s[0] !in multiset(s[1..]);
      forall n
        ensures multiset(s[1..])[n] <= 1
      {
        assert multiset(s)[n] <= 1;
      }
      CountsDistinct(s[1..]);
      assert forall i :: 1 <= i < |s| ==> s[i] in s[1..] by {
        assert forall i :: 1 <= i < |s| ==> s[i] == s[1..][i - 1];
      }
    }
  }

  lemma TwoSay(a: string, x: Item, b: string, y: Item)
    requires ParseLine(a) == x && !x.File? && !x.Malformed? && CleanLine(a)
    requires ParseLine(b) == y && !y.File? && !y.Malformed? && CleanLine(b)
    ensures Says([a, b], MergeData(ItemData(x), ItemData(y)))
  {
    hide ParseLine, CleanLine, DataOf, MergeData;
    SaysOne(a, x);
    SaysOne(b, y);
    SaysConcat([a], ItemData(x), [b], ItemData(y));
    assert [a] + [b] == [a, b];
  }

  lemma MergeNumbers()
    ensures Merge(Last, NoData().fns, NoData().fns) == NoData().fns
    ensures Merge(Max, NoData().fndas, NoData().fndas) == NoData().fndas
    ensures Merge(Max, NoData().das, NoData().das) == NoData().das
  {
    MergeEmpty(Last, NoData().fns);
    MergeEmpty(Max, NoData().fndas);
    MergeEmpty(Max, NoData().das);
  }

  lemma FunctionTotalsSay(fnf: nat, fnh: nat)
    ensures Says(["FNF:" + Decimal(fnf), "FNH:" + Decimal(fnh)], NoData().(fnf := fnf, fnh := fnh))
  {
    hide ParseLine, CleanLine, Decimal, DataOf;
    TotalIsClean("FNF", fnf);
    TotalIsClean("FNH", fnh);
    FunctionTotals(Decimal(fnf), fnf);
    FunctionTotals(Decimal(fnh), fnh);
    assert "FNF" + ":" + Decimal(fnf) == "FNF:" + Decimal(fnf) && "FNH" + ":" + Decimal(fnh) == "FNH:" + Decimal(fnh);
    TwoSay("FNF:" + Decimal(fnf), FnFound(fnf), "FNH:" + Decimal(fnh), FnHit(fnh));
    MergeNumbers();
  }

  lemma LineTotalsSay(lf: nat, lh: nat)
    ensures Says(["LF:" + Decimal(lf), "LH:" + Decimal(lh)], NoData().(lf := lf, lh := lh))
  {
    hide ParseLine, CleanLine, Decimal, DataOf;
    TotalIsClean("LF", lf);
    TotalIsClean("LH", lh);
    LineTotals(Decimal(lf), lf);
    LineTotals(Decimal(lh), lh);
    assert "LF" + ":" + Decimal(lf) == "LF:" + Decimal(lf) && "LH" + ":" + Decimal(lh) == "LH:" + Decimal(lh);
    TwoSay("LF:" + Decimal(lf), LinesFound(lf), "LH:" + Decimal(lh), LinesHit(lh));
    MergeNumbers();
  }

  lemma BranchTotalsSay(brf: nat, brh: nat)
    ensures Says(["BRF:" + Decimal(brf), "BRH:" + Decimal(brh)], NoData().(brf := brf, brh := brh))
  {
    hide ParseLine, CleanLine, Decimal, DataOf;
    TotalIsClean("BRF", brf);
    TotalIsClean("BRH", brh);
    BranchTotals(Decimal(brf), brf);
    BranchTotals(Decimal(brh), brh);
    assert "BRF" + ":" + Decimal(brf) == "BRF:" + Decimal(brf) && "BRH" + ":" + Decimal(brh) == "BRH:" + Decimal(brh);
    TwoSay("BRF:" + Decimal(brf), BranchesFound(brf), "BRH:" + Decimal(brh), BranchesHit(brh));
    MergeNumbers();
  }

  /** The lines of a record after the one that names its file. */
  ghost function PrintEntries(d: FileData): seq<string>
    requires ValidData(d)
  {
    SortKeeps(d.das.keys);
    PrintFns(d.fns.keys, d.fns.values)
    + ["FNF:" + Decimal(d.fnf), "FNH:" + Decimal(Max(d.fnh, CountHit(d.fndas.keys, d.fndas.values)))]
    + PrintFndas(d.fndas.keys, d.fndas.values)
    + PrintDas(SortLines(d.das.keys), d.das.values)
    + ["LF:" + Decimal(Max(d.lf, |d.das.keys|)), "LH:" + Decimal(Max(d.lh, CountHit(d.das.keys, d.das.values)))]
    + (if d.brf > 0 then ["BRF:" + Decimal(d.brf), "BRH:" + Decimal(d.brh)] else [])
  }

  lemma EntriesSay(d: FileData)
    requires ValidData(d) && CleanNames(d.fns.keys) && CleanNames(d.fndas.keys)
    ensures Says(PrintEntries(d), Normalized(d))
  {
    hide ParseLine, CleanLine, Decimal, DataOf, CleanName, PrintFns, PrintFndas, PrintDas, Says;
    var n := Normalized(d);
    SortKeeps(d.das.keys);
    SortedTable(d.das);
    TablesSay(n);
    var branches := if d.brf > 0 then ["BRF:" + Decimal(d.brf), "BRH:" + Decimal(d.brh)] else [];
    EntriesAre(d, n, branches);
    assert n.brf == d.brf && n.brh == if d.brf > 0 then d.brh else 0;
    hide Normalized, PrintEntries;
    BranchesSay(d.brf, d.brh, branches);
    FunctionTotalsSay(n.fnf, n.fnh);
    LineTotalsSay(n.lf, n.lh);
    SixParts(PrintFns(n.fns.keys, n.fns.values), ["FNF:" + Decimal(n.fnf), "FNH:" + Decimal(n.fnh)],
             PrintFndas(n.fndas.keys, n.fndas.values), PrintDas(n.das.keys, n.das.values),
             ["LF:" + Decimal(n.lf), "LH:" + Decimal(n.lh)], branches, n);
  }

  lemma TablesSay(n: FileData)
    requires ValidData(n) && CleanNames(n.fns.keys) && CleanNames(n.fndas.keys)
    ensures Says(PrintFns(n.fns.keys, n.fns.values), NoData().(fns := n.fns))
    ensures Says(PrintFndas(n.fndas.keys, n.fndas.values), NoData().(fndas := n.fndas))
    ensures Says(PrintDas(n.das.keys, n.das.values), NoData().(das := n.das))
  {
    hide PrintFns, PrintFndas, PrintDas, Says, CleanName;
    FnsSay(n.fns, |n.fns.keys|);
    FndasSay(n.fndas, |n.fndas.keys|);
    DasSay(n.das, |n.das.keys|);
    PrefixAll(n.fns);
    PrefixAll(n.fndas);
    PrefixAll(n.das);
    assert n.fns.keys[..|n.fns.keys|] == n.fns.keys && n.fndas.keys[..|n.fndas.keys|] == n.fndas.keys;
    assert n.das.keys[..|n.das.keys|] == n.das.keys;
  }

  lemma BranchesSay(brf: nat, brh: nat, branches: seq<string>)
    requires branches == if brf > 0 then ["BRF:" + Decimal(brf), "BRH:" + Decimal(brh)] else []
    ensures Says(branches, NoData().(brf := brf, brh := if brf > 0 then brh else 0))
  {
    hide Says;
    if brf > 0 { BranchTotalsSay(brf, brh); } else { SaysNone(); }
  }

  lemma EntriesAre(d: FileData, n: FileData, branches: seq<string>)
    requires ValidData(d) && n == Normalized(d) && Valid(n.das)
    requires branches == if d.brf > 0 then ["BRF:" + Decimal(d.brf), "BRH:" + Decimal(d.brh)] else []
    ensures n.fns == d.fns && n.fndas == d.fndas
    ensures PrintEntries(d) ==
            PrintFns(n.fns.keys, n.fns.values) + ["FNF:" + Decimal(n.fnf), "FNH:" + Decimal(n.fnh)]
            + PrintFndas(n.fndas.keys, n.fndas.values) + PrintDas(n.das.keys, n.das.values)
            + ["LF:" + Decimal(n.lf), "LH:" + Decimal(n.lh)] + branches
  {
    hide Decimal, PrintFns, PrintFndas, PrintDas, CountHit, SortLines;
    SortKeeps(d.das.keys);
  }

  lemma SixParts(a: seq<string>, b: seq<string>, c: seq<string>, d: seq<string>, e: seq<string>, f: seq<string>,
                 n: FileData)
    requires Says(a, NoData().(fns := n.fns)) && Says(b, NoData().(fnf := n.fnf, fnh := n.fnh))
    requires Says(c, NoData().(fndas := n.fndas)) && Says(d, NoData().(das := n.das))
    requires Says(e, NoData().(lf := n.lf, lh := n.lh)) && Says(f, NoData().(brf := n.brf, brh := n.brh))
    ensures Says(a + b + c + d + e + f, n)
  {
    hide Says, Merge;
    MergeEmpty(Last, n.fns);
    MergeEmpty(Max, n.fndas);
    MergeEmpty(Max, n.das);
    MergeNumbers();
    var x1 := NoData().(fns := n.fns);
    var x2 := x1.(fnf := n.fnf, fnh := n.fnh);
    SaysConcat(a, x1, b, NoData().(fnf := n.fnf, fnh := n.fnh));
    var x3 := x2.(fndas := n.fndas);
    SaysConcat(a + b, x2, c, NoData().(fndas := n.fndas));
    var x4 := x3.(das := n.das);
    SaysConcat(a + b + c, x3, d, NoData().(das := n.das));
    var x5 := x4.(lf := n.lf, lh := n.lh);
    SaysConcat(a + b + c + d, x4, e, NoData().(lf := n.lf, lh := n.lh));
    SaysConcat(a + b + c + d + e, x5, f, NoData().(brf := n.brf, brh := n.brh));
  }

  // ---------------------------------------------------------------- the round trip

  lemma {:induction false} JoinIsClean(lines: seq<string>)
    requires lines != [] && CleanLines(lines)
    ensures Whole(Join(lines, "\n"), END_OF_RECORD)
  {
    hide Whole;
    if |lines| > 1 {
      JoinIsClean(lines[1..]);
      assert '\n' !in END_OF_RECORD;
      WholeAcross(lines[0], '\n', Join(lines[1..], "\n"), END_OF_RECORD);
    }
  }

  lemma HeadItems(path: string)
    ensures ParseLine("TN:") == Ignored && ParseLine("SF:" + path) == File(path)
  {
    assert ("SF:" + path)[3..] == path;
    assert "SF:" <= "SF:" + path;
    assert "TN:"[0] == 'T';
  }

  /** What two lines say of which one is ignored and one names a file. */
  lemma TwoHeadLines(a: string, b: string, path: string)
    requires ParseLine(a) == Ignored && ParseLine(b) == File(path)
    ensures WellFormed([a, b]) && FileOf([a, b]) == path && DataOf([a, b]) == NoData()
  {
    hide ParseLine, MergeData;
    assert [a, b][..1] == [a] && [a][..0] == [];
    assert ItemData(Ignored) == NoData() && ItemData(File(path)) == NoData();
    NoDataIsNeutral(NoData());
    assert DataOf([]) == NoData() && DataOf([a]) == NoData();
    assert FileOf([a]) == FileOf([]);
  }

  /** A record starts with a line that says nothing and the line that names its file. */
  lemma HeadLines(path: string)
    requires CleanPath(path)
    ensures var head := ["TN:", "SF:" + path];
            && CleanLines(head) && WellFormed(head) && FileOf(head) == path && DataOf(head) == NoData()
  {
    hide ParseLine, WellFormed, FileOf, DataOf, CleanLine, CleanPath;
    HeadItems(path);
    TwoHeadLines("TN:", "SF:" + path, path);
    HeadIsClean(path);
  }

  lemma HeadIsClean(path: string)
    requires CleanPath(path)
    ensures CleanLine("TN:") && CleanLine("SF:" + path)
  {
    TagIsClean("TN");
    TagIsClean("SF");
    WholeWithout("", END_OF_RECORD);
    CleanAcross("TN", ':', "");
    CleanAcross("SF", ':', path);
    assert "TN" + ":" + "" == "TN:" && "SF" + ":" + path == "SF:" + path;
  }

  /** Reading the lines of a written record gives its file and its data. */
  lemma BodySays(path: string, d: FileData)
    requires ValidData(d) && CleanNames(d.fns.keys) && CleanNames(d.fndas.keys) && CleanPath(path)
    ensures var body := PrintBody(path, d);
            && body != [] && CleanLines(body) && WellFormed(body) && FileOf(body) == path
            && DataOf(body) == Normalized(d)
  {
    BodyParts(path, d);
    EntriesSay(d);
    HeadLines(path);
    hide PrintEntries, PrintBody, Normalized, Says, DataOf, FileOf, WellFormed, CleanLines;
    HeadAndEntries(path, ["TN:", "SF:" + path], PrintEntries(d), Normalized(d));
  }

  lemma HeadAndEntries(path: string, head: seq<string>, entries: seq<string>, d: FileData)
    requires head != [] && CleanLines(head) && WellFormed(head) && FileOf(head) == path && DataOf(head) == NoData()
    requires Says(entries, d)
    ensures var body := head + entries;
            body != [] && CleanLines(body) && WellFormed(body) && FileOf(body) == path && DataOf(body) == d
  {
    hide ParseLine, DataOf, FileOf, CleanLine, MergeData;
    DataConcat(head, entries);
    NoDataIsNeutral(d);
    FileConcat(head, entries);
    WellFormedConcat(head, entries);
    assert forall i :: 0 <= i < |head + entries| ==>
      (head + entries)[i] == if i < |head| then head[i] else entries[i - |head|];
  }

  lemma BodyParts(path: string, d: FileData)
    requires ValidData(d)
    ensures PrintBody(path, d) == ["TN:", "SF:" + path] + PrintEntries(d)
  {
    hide Decimal, CountHit, PrintFns, PrintFndas, PrintDas, SortLines;
    SortKeeps(d.das.keys);
  }

  /** The text of one written record. */
  ghost function RecordText(path: string, d: FileData): string
    requires ValidData(d)
  {
    Join(PrintBody(path, d), "\n") + "\n" + END_OF_RECORD
  }

  lemma RecordOnItsOwn(path: string, d: FileData)
    requires ValidData(d) && CleanNames(d.fns.keys) && CleanNames(d.fndas.keys) && CleanPath(path)
    ensures Parse(RecordText(path, d)) == Some(Single(path, Normalized(d)))
    ensures |Records(RecordText(path, d))| > 1 && Records(RecordText(path, d))[|Records(RecordText(path, d))| - 1] == ""
  {
    BodySays(path, d);
    hide PrintBody, Normalized, DataOf, FileOf, WellFormed, CleanLines, Split, Join, Collect, Readable;
    var text := Join(PrintBody(path, d), "\n");
    JoinIsClean(PrintBody(path, d));
    OneRecord(text);
    RecordWithNewline(PrintBody(path, d), text);
    CollectPair(text + "\n");
  }

  lemma OneRecord(text: string)
    requires Whole(text, END_OF_RECORD)
    ensures Records(text + "\n" + END_OF_RECORD) == [text + "\n", ""]
  {
    assert Records(END_OF_RECORD) == ["", ""] by {
      assert END_OF_RECORD <= END_OF_RECORD && END_OF_RECORD[|END_OF_RECORD|..] == "";
    }
    JoinedRecords(text, END_OF_RECORD);
    hide Split;
    assert text + ['\n'] + "" == text + "\n";
    assert Glue([text], '\n', ["", ""]) == [text + ['\n'] + "", ""];
  }

  lemma RecordWithNewline(body: seq<string>, text: string)
    requires body != [] && CleanLines(body) && WellFormed(body) && text == Join(body, "\n")
    ensures Lines(text + "\n") == body + [""]
    ensures WellFormed(Lines(text + "\n"))
    ensures FileOf(Lines(text + "\n")) == FileOf(body) && DataOf(Lines(text + "\n")) == DataOf(body)
  {
    hide ParseLine, FileOf, DataOf, Whole;
    SplitJoin(body, '\n');
    LinesConcat(text, "");
    assert text + "\n" + "" == text + "\n";
    assert Lines("") == [""];
    BlankLineSaysNothing("");
    SaysNothing([""]);
    DataConcat(body, [""]);
    NoDataIsNeutral(DataOf(body));
    FileConcat(body, [""]);
    WellFormedConcat(body, [""]);
  }

  lemma CollectPair(record: string)
    ensures Collect([record, ""]) == Contribution(record)
    ensures Readable([record, ""]) <==> WellFormed(Lines(record))
  {
    hide Contribution, WellFormed;
    assert [record, ""] == [record] + [""];
    CollectConcat([record], [""]);
    CollectOne(record);
    CollectOne("");
    BlankRecord("");
    MergeEmptyMap(Contribution(record));
    ReadableConcat([record], [""]);
  }

  ghost function NormalizedMap(m: FileMap): FileMap
    requires ValidMap(m)
  {
    Table(m.keys, map path | path in m.values :: Normalized(m.values[path]))
  }

  lemma {:induction false} FilesRoundTrip(m: FileMap, n: nat)
    requires ValidMap(m) && CleanMap(m) && n <= |m.keys|
    ensures var text := Join(PrintFiles(m, n), "\n");
            && Parse(text) == Some(Prefix(NormalizedMap(m), n))
            && Closed(text)
  {
    hide Parse, Closed, Normalized, PrintBody, ValidData, Join, Prefix, RecordText, Records, CleanNames, CleanPath;
    if n == 0 {
      assert Join(PrintFiles(m, 0), "\n") == "" by { JoinNothing(); }
      ParseNothing();
      NothingIsClosed();
      PrefixAll(NormalizedMap(m));
    } else {
      FilesRoundTrip(m, n - 1);
      var path := m.keys[n - 1];
      var d := m.values[path];
      RecordOnItsOwn(path, d);
      PrefixStep(MergeData, NormalizedMap(m), n - 1);
      FilesJoin(m, n);
      OneMoreRecord(m, n, Join(PrintFiles(m, n - 1), "\n"), RecordText(path, d), Single(path, Normalized(d)));
    }
  }

  lemma OneMoreRecord(m: FileMap, n: nat, text: string, record: string, single: FileMap)
    requires ValidMap(m) && 0 < n <= |m.keys| && Valid(NormalizedMap(m))
    requires Parse(text) == Some(Prefix(NormalizedMap(m), n - 1)) && Closed(text)
    requires Parse(record) == Some(single) && Records(record)[|Records(record)| - 1] == "" && |Records(record)| > 1
    requires Prefix(NormalizedMap(m), n) == MergeMaps(Prefix(NormalizedMap(m), n - 1), single)
    ensures var longer := if n == 1 then record else text + "\n" + record;
            Parse(longer) == Some(Prefix(NormalizedMap(m), n)) && Closed(longer)
  {
    hide Parse, Normalized, MergeMaps, Split;
    if n == 1 {
      PrefixAll(NormalizedMap(m));
      MergeEmptyMap(single);
      EndsClosed(record);
    } else {
      ParseJoined(text, record);
      JoinedClosed(text, record);
    }
  }

  lemma JoinNothing()
    ensures Join([], "\n") == ""
  {
  }

  lemma NothingIsClosed()
    ensures Closed("")
  {
    assert Records("") == [""];
  }

  lemma EndsClosed(text: string)
    requires Records(text)[|Records(text)| - 1] == ""
    ensures Closed(text)
  {
  }

  lemma JoinedClosed(a: string, b: string)
    requires |Records(b)| > 1 && Records(b)[|Records(b)| - 1] == ""
    ensures Closed(a + "\n" + b)
  {
    JoinedRecords(a, b);
  }

  /** The text of n files is that of n - 1 files, a newline and the record of the last one. */
  lemma FilesJoin(m: FileMap, n: nat)
    requires ValidMap(m) && 0 < n <= |m.keys|
    ensures var record := RecordText(m.keys[n - 1], m.values[m.keys[n - 1]]);
            Join(PrintFiles(m, n), "\n")
            == if n == 1 then record else Join(PrintFiles(m, n - 1), "\n") + "\n" + record
  {
    var body := PrintBody(m.keys[n - 1], m.values[m.keys[n - 1]]);
    assert |body| >= 2;
    hide PrintBody, Join;
    JoinConcat(body, [END_OF_RECORD], "\n");
    JoinOne(END_OF_RECORD);
    FilesStep(m, n);
    if n == 1 {
      ConcatNothing(body + [END_OF_RECORD]);
    } else {
      JoinConcat(PrintFiles(m, n - 1), body + [END_OF_RECORD], "\n");
    }
  }

  lemma JoinOne(line: string)
    ensures Join([line], "\n") == line
  {
  }

  lemma FilesStep(m: FileMap, n: nat)
    requires ValidMap(m) && 0 < n <= |m.keys|
    ensures PrintFiles(m, n)
         == PrintFiles(m, n - 1) + (PrintBody(m.keys[n - 1], m.values[m.keys[n - 1]]) + [END_OF_RECORD])
    ensures n == 1 ==> PrintFiles(m, n - 1) == []
    ensures n > 1 ==> PrintFiles(m, n - 1) != []
  {
    hide PrintBody;
  }

  /** Reading what was written gives the same function lines, hits and line counts, the lines sorted
      and the totals raised to what the entries show. */
  lemma ParseUndoesGenerate(m: FileMap)
    requires ValidMap(m) && CleanMap(m)
    ensures Parse(Generate(m)) == Some(NormalizedMap(m))
  {
    FilesRoundTrip(m, |m.keys|);
    PrefixAll(NormalizedMap(m));
  }

  // ---------------------------------------------------------------- writing again

  ghost predicate Ascending(s: seq<nat>) {
    forall i :: 0 < i < |s| ==> s[i - 1] <= s[i]
  }

  lemma {:induction false} InsertAscends(s: seq<nat>, n: nat)
    requires Ascending(s)
    ensures Ascending(InsertSorted(s, n))
    ensures InsertSorted(s, n)[0] == if s == [] || n <= s[0] then n else s[0]
  {
    if s != [] && n > s[0] {
      assert forall i :: 0 < i < |s[1..]| ==> s[1..][i - 1] == s[i] && s[1..][i] == s[i + 1];
      InsertAscends(s[1..], n);
    }
  }

  lemma {:induction false} SortAscends(s: seq<nat>)
    ensures Ascending(SortLines(s))
  {
    if s != [] {
      SortAscends(s[1..]);
      InsertAscends(SortLines(s[1..]), s[0]);
    }
  }

  lemma {:induction false} SortOfSorted(s: seq<nat>)
    requires Ascending(s)
    ensures SortLines(s) == s
  {
    if s != [] {
      assert forall i :: 0 < i < |s[1..]| ==> s[1..][i - 1] == s[i] && s[1..][i] == s[i + 1];
      SortOfSorted(s[1..]);
      HeadTail(s, []);
    }
  }

  lemma {:induction false} CountInserted(s: seq<nat>, n: nat, values: map<nat, nat>)
    requires n in values && forall i :: 0 <= i < |s| ==> s[i] in values
    ensures forall i :: 0 <= i < |InsertSorted(s, n)| ==> InsertSorted(s, n)[i] in values
    ensures CountHit(InsertSorted(s, n), values) == CountHit(s, values) + if values[n] > 0 then 1 else 0
  {
    if s != [] && n > s[0] {
      CountInserted(s[1..], n, values);
    }
  }

  lemma {:induction false} CountSorted(s: seq<nat>, values: map<nat, nat>)
    requires forall i :: 0 <= i < |s| ==> s[i] in values
    ensures forall i :: 0 <= i < |SortLines(s)| ==> SortLines(s)[i] in values
    ensures CountHit(SortLines(s), values) == CountHit(s, values)
  {
    if s != [] {
      CountSorted(s[1..], values);
      CountInserted(SortLines(s[1..]), s[0], values);
    }
  }

  lemma {:induction false} CountAtMost<K>(keys: seq<K>, values: map<K, nat>)
    requires forall i :: 0 <= i < |keys| ==> keys[i] in values
    ensures CountHit(keys, values) <= |keys|
  {
    if keys != [] { CountAtMost(keys[1..], values); }
  }

  lemma NormalizedIsValid(d: FileData)
    requires ValidData(d)
    ensures ValidData(Normalized(d))
    ensures Normalized(Normalized(d)) == Normalized(d)
    ensures SortLines(Normalized(d).das.keys) == Normalized(d).das.keys
  {
    SortedTable(d.das);
    SortAscends(d.das.keys);
    SortOfSorted(SortLines(d.das.keys));
    CountSorted(d.das.keys, d.das.values);
  }

  lemma BodyOfNormalized(path: string, d: FileData)
    requires ValidData(d)
    ensures ValidData(Normalized(d)) && PrintBody(path, Normalized(d)) == PrintBody(path, d)
  {
    hide PrintFns, PrintFndas, PrintDas, Decimal;
    NormalizedIsValid(d);
    SortKeeps(d.das.keys);
    SortedTable(d.das);
    CountSorted(d.das.keys, d.das.values);
  }

  lemma NormalizedMapIsValid(m: FileMap)
    requires ValidMap(m)
    ensures ValidMap(NormalizedMap(m))
  {
    forall path | path in m.values
      ensures ValidData(Normalized(m.values[path]))
    {
      NormalizedIsValid(m.values[path]);
    }
  }

  lemma {:induction false} FilesOfNormalized(m: FileMap, n: nat)
    requires ValidMap(m) && ValidMap(NormalizedMap(m)) && n <= |m.keys|
    ensures PrintFiles(NormalizedMap(m), n) == PrintFiles(m, n)
  {
    hide PrintBody, Normalized, ValidData;
    if n > 0 {
      FilesOfNormalized(m, n - 1);
      BodyOfNormalized(m.keys[n - 1], m.values[m.keys[n - 1]]);
    }
  }

  /** Writing what was read from a written file changes nothing. */
  lemma SecondWriteIsTheSame(m: FileMap)
    requires ValidMap(m) && CleanMap(m)
    ensures Parse(Generate(m)).Some? && ValidMap(Parse(Generate(m)).value)
    ensures Generate(Parse(Generate(m)).value) == Generate(m)
  {
    ParseUndoesGenerate(m);
    NormalizedMapIsValid(m);
    FilesOfNormalized(m, |m.keys|);
  }

  // ---------------------------------------------------------------- totals

  ghost predicate HitWithinFound(m: FileMap) {
    forall path :: path in m.values ==> m.values[path].lh <= m.values[path].lf
  }

  lemma MergeKeepsTotals(a: FileMap, b: FileMap)
    requires HitWithinFound(a) && HitWithinFound(b)
    ensures HitWithinFound(MergeMaps(a, b))
  {
  }

  lemma {:induction false} CollectKeepsTotals(records: seq<string>)
    requires forall i :: 0 <= i < |records| ==> HitWithinFound(Contribution(records[i]))
    ensures HitWithinFound(Collect(records))
  {
    if records != [] {
      CollectKeepsTotals(records[..|records| - 1]);
      MergeKeepsTotals(Collect(records[..|records| - 1]), Contribution(records[|records| - 1]));
    }
  }

  lemma NormalizedTotals(m: FileMap)
    requires ValidMap(m) && HitWithinFound(m)
    ensures HitWithinFound(NormalizedMap(m))
  {
    forall path | path in m.values
      ensures Normalized(m.values[path]).lh <= Normalized(m.values[path]).lf
    {
      CountAtMost(m.values[path].das.keys, m.values[path].das.values);
    }
  }

  /** LH is at most LF in every record of the text. */
  ghost predicate TotalsInOrder(text: string) {
    forall i :: 0 <= i < |Records(text)| ==> HitWithinFound(Contribution(Records(text)[i]))
  }

  lemma ParseKeepsTotals(text: string)
    requires Parse(text).Some? && TotalsInOrder(text)
    ensures ValidMap(Parse(text).value) && HitWithinFound(Parse(text).value)
  {
    hide Collect, Contribution, HitWithinFound, ValidMap, Records;
    CollectKeepsTotals(Records(text));
    CollectIsValid(Records(text));
  }

  /** When LH is at most LF in every record of two files, it is in every record written for their
      merge, and in what is read from that text. */
  lemma WrittenTotals(a: string, b: string)
    requires Parse(a).Some? && Parse(b).Some? && TotalsInOrder(a) && TotalsInOrder(b)
    ensures var merged := MergeMaps(Parse(a).value, Parse(b).value);
            && ValidMap(merged) && HitWithinFound(NormalizedMap(merged))
            && (CleanMap(merged) ==>
                  Parse(Generate(merged)).Some? && HitWithinFound(Parse(Generate(merged)).value))
  {
    hide Parse, TotalsInOrder, HitWithinFound, ValidMap, MergeMaps, Generate, NormalizedMap, CleanMap;
    ParseKeepsTotals(a);
    ParseKeepsTotals(b);
    var merged := MergeMaps(Parse(a).value, Parse(b).value);
    MergeMapsValid(Parse(a).value, Parse(b).value);
    MergeKeepsTotals(Parse(a).value, Parse(b).value);
    NormalizedTotals(merged);
    if CleanMap(merged) { ParseUndoesGenerate(merged); }
  }

  // ---------------------------------------------------------------- merging files

  /** `mergeLcovFiles`: the existing file afterwards, where None is a file that does not exist. Without
      a new file it stays as it is, and without an existing one it becomes a copy; otherwise both are
      read and merged. `readable` is false when a number cannot be read. */
  method MergeLcovFiles(existing: Option<string>, added: Option<string>)
    returns (readable: bool, merged: Option<string>)
    ensures added.None? ==> readable && merged == existing
    ensures added.Some? && existing.None? ==> readable && merged == added
    ensures added.Some? && existing.Some? ==>
              && (readable <==> Parse(existing.value).Some? && Parse(added.value).Some?)
              && (readable ==>
                    && ValidMap(MergeMaps(Parse(existing.value).value, Parse(added.value).value))
                    && merged == Some(Generate(MergeMaps(Parse(existing.value).value, Parse(added.value).value))))
  {
    hide Parse, Generate;
    if added.None? || existing.None? {
      return true, if added.None? then existing else added;
    }
    var existingMap := ParseLcov(existing.value);
    var newMap := ParseLcov(added.value);
    if existingMap.None? || newMap.None? {
      return false, existing;
    }
    var mergedMap := MergeFileMaps(existingMap.value, newMap.value);
    var text := GenerateLcov(mergedMap);
    return true, Some(text);
  }

  ghost predicate ClosedParts(parts: seq<string>) {
    forall i :: 0 <= i < |parts| ==> Closed(parts[i]) && Parse(parts[i]).Some?
  }

  /** `mergeCoverageParts` for one package: the parts are concatenated and merged into the existing
      coverage file, or, when there is none, with themselves. Without parts, or with blank ones only,
      the coverage file stays as it is. `ok` is false when some number cannot be read. */
  method MergeCoverageParts(lcov: Option<string>, parts: seq<string>) returns (ok: bool, merged: Option<string>)
    ensures parts == [] || Blank(Concatenated(parts)) ==> ok && merged == lcov
    ensures ClosedParts(parts) && (lcov.Some? ==> Parse(lcov.value).Some?) ==> ok
    ensures ok && ClosedParts(parts) && parts != [] && !Blank(Concatenated(parts)) ==>
              var all := MergeAll(ParseAll(parts));
              && (lcov.Some? ==> Parse(lcov.value).Some?)
              && var expected := if lcov.Some? then MergeMaps(Parse(lcov.value).value, all) else all;
                 ValidMap(expected) && merged == Some(Generate(expected))
  {
    hide Parse, Closed, Generate, MergeAll;
    if |parts| == 0 {
      return true, lcov;
    }
    var mergedContent := "";
    for i := 0 to |parts|
      invariant mergedContent + Concatenated(parts[i..]) == Concatenated(parts)
    {
      assert parts[i..][1..] == parts[i + 1..];
      mergedContent := mergedContent + parts[i] + "\n";
    }
    assert parts[|parts|..] == [] && mergedContent + "" == mergedContent;
    if Blank(mergedContent) {
      if ClosedParts(parts) { ParseConcatenated(parts); }
      return true, lcov;
    }
    if ClosedParts(parts) {
      ParseConcatenated(parts);
      MapsIdempotent(MergeAll(ParseAll(parts)));
    }
    ok, merged := MergeLcovFiles(if lcov.Some? then lcov else Some(mergedContent), Some(mergedContent));
  }
}
