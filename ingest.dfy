/**
 * The loop that reads the ink-coverage device's output into page records.
 * Each line has its double spaces collapsed and is split on whitespace; a
 * line with exactly six fields is a record whose first four fields are
 * read with `float` as C, M, Y and K, and whose page number is its
 * position in the file (counting from 1, skipped lines included). Any
 * other line is skipped. A record field that `float` rejects raises
 * ValueError, which ends the whole run.
 */
module InkCoverage {
  import opened Wrappers
  import opened Strings
  import opened Floats
  import opened PageColor

  /** Python's ValueError from `float(field)`. */
  datatype IngestError = CouldNotConvert(field: string)

  /** `map(float, fields)`: every field read, or the first one that fails. */
  function ParseFloats(fields: seq<string>): (r: Result<seq<real>, IngestError>)
    ensures r.Ok? <==> forall i :: 0 <= i < |fields| ==> ParseReal(fields[i]).Some?
    ensures r.Ok? ==> |r.value| == |fields|
    ensures r.Ok? ==> forall i :: 0 <= i < |fields| ==> ParseReal(fields[i]) == Some(r.value[i])
    ensures r.Err? ==> FirstFailure(fields, r.error.field)
    decreases |fields|
  {
    if fields == [] then Ok([])
    else match ParseReal(fields[0])
      case None => Err(CouldNotConvert(fields[0]))
      case Some(x) =>
        match ParseFloats(fields[1..])
        case Err(e) => Err(e)
        case Ok(xs) => Ok([x] + xs)
  }

  /** `f` is the first of `fields` that `float` rejects. */
  predicate FirstFailure(fields: seq<string>, f: string)
  {
    exists i :: 0 <= i < |fields| && fields[i] == f && ParseReal(fields[i]).None? &&
      forall j :: 0 <= j < i ==> ParseReal(fields[j]).Some?
  }

  /** One pass of the loop body: Ok(None) is `continue`. */
  function ParseLine(line: string, number: int): Result<Option<PageColorInfo>, IngestError>
  {
    var fields := Split(ReplaceDoubleSpace(line));
    if |fields| != 6 then Ok(None)
    else
      match ParseFloats(fields[..4])
      case Err(e) => Err(e)
      case Ok(cmyk) => Ok(Some(NewPageColorInfo(cmyk, number)))
  }

  /** The records of `lines`, read in order; the first error ends the run. */
  function Ingest(lines: seq<string>): Result<seq<PageColorInfo>, IngestError>
    decreases |lines|
  {
    if lines == [] then Ok([])
    else
      match Ingest(lines[..|lines| - 1])
      case Err(e) => Err(e)
      case Ok(pages) =>
        match ParseLine(lines[|lines| - 1], |lines|)
        case Err(e) => Err(e)
        case Ok(None) => Ok(pages)
        case Ok(Some(p)) => Ok(pages + [p])
  }

  /** The loop at the end of the script: `pages` grows as lines are read. */
  method ReadPages(lines: seq<string>) returns (r: Result<seq<PageColorInfo>, IngestError>)
    ensures r == Ingest(lines)
  {
    var pages: seq<PageColorInfo> := [];
    for i := 0 to |lines|
      invariant Ingest(lines[..i]) == Ok(pages)
    {
      assert lines[..i + 1][..i] == lines[..i];
      var line := ReplaceDoubleSpace(lines[i]);
      var fields := Split(line);
      if |fields| != 6 {
        continue;
      }
      var cmyk := ParseFloats(fields[..4]);
      if cmyk.Err? {
        assert Ingest(lines[..i + 1]) == Err(cmyk.error);
        IngestErrorStops(lines, i + 1);
        return Err(cmyk.error);
      }
      var number := i + 1;
      pages := pages + [NewPageColorInfo(cmyk.value, number)];
    }
    assert lines[..|lines|] == lines;
    return Ok(pages);
  }

  /** Once a prefix fails, the whole run fails with the same error. */
  lemma {:induction false} IngestErrorStops(lines: seq<string>, k: nat)
    requires k <= |lines| && Ingest(lines[..k]).Err?
    ensures Ingest(lines) == Ingest(lines[..k])
    decreases |lines| - k
  {
    if k == |lines| {
      assert lines[..k] == lines;
    } else {
      var init := lines[..|lines| - 1];
      assert init[..k] == lines[..k];
      IngestErrorStops(init, k);
    }
  }

  // ---------------------------------------------------------------------
  // The record shape, stated on the line as read (without the replace).

  /** A line that `split()` cuts into exactly six fields. */
  predicate IsRecordLine(line: string)
  {
    |Split(line)| == 6
  }

  /** The first four fields of a record line are all numbers. */
  predicate Converts(line: string)
    requires IsRecordLine(line)
  {
    forall i :: 0 <= i < 4 ==> ParseReal(Split(line)[i]).Some?
  }

  /** The page a convertible record line at position `number` becomes. */
  function PageOf(line: string, number: int): PageColorInfo
    requires IsRecordLine(line) && Converts(line)
  {
    var f := Split(line);
    PageColorInfo(ParseReal(f[0]).value, ParseReal(f[1]).value, ParseReal(f[2]).value,
                  ParseReal(f[3]).value, number)
  }

  /** One line: skipped unless it has six fields, an error unless its four numbers read. */
  lemma ParseLineShape(line: string, number: int)
    ensures !IsRecordLine(line) ==> ParseLine(line, number) == Ok(None)
    ensures IsRecordLine(line) && !Converts(line) ==> ParseLine(line, number).Err?
    ensures IsRecordLine(line) && Converts(line) ==> ParseLine(line, number) == Ok(Some(PageOf(line, number)))
  {
    SplitReplace(line);
    var f := Split(line);
    if |f| == 6 {
      var r := ParseFloats(f[..4]);
      assert forall i :: 0 <= i < 4 ==> f[..4][i] == f[i];
      if r.Ok? {
        assert r.value == [r.value[0], r.value[1], r.value[2], r.value[3]];
      }
    }
  }

  /** The run fails exactly when some record line has a field `float` rejects. */
  lemma {:induction false} IngestFailsIff(lines: seq<string>)
    ensures Ingest(lines).Err? <==>
              exists i :: 0 <= i < |lines| && IsRecordLine(lines[i]) && !Converts(lines[i])
    decreases |lines|
  {
    if lines != [] {
      var n := |lines| - 1;
      var init := lines[..n];
      IngestFailsIff(init);
      ParseLineShape(lines[n], |lines|);
      assert forall i :: 0 <= i < n ==> init[i] == lines[i];
      if IsRecordLine(lines[n]) && !Converts(lines[n]) {
        assert 0 <= n < |lines| && IsRecordLine(lines[n]) && !Converts(lines[n]);
      }
      if (exists i :: 0 <= i < |lines| && IsRecordLine(lines[i]) && !Converts(lines[i])) && Ingest(init).Ok? {
        var i :| 0 <= i < |lines| && IsRecordLine(lines[i]) && !Converts(lines[i]);
        assert i == n;
      }
    }
  }

  /** `p` is the page of the record line at position `p.pageNumber`. */
  predicate FromItsLine(lines: seq<string>, p: PageColorInfo)
  {
    var n := p.pageNumber;
    1 <= n <= |lines| && IsRecordLine(lines[n - 1]) && Converts(lines[n - 1]) &&
    p == PageOf(lines[n - 1], n)
  }

  /**
   * Every page comes from the line whose position is its number: a record
   * line, read field by field; and no more pages than lines.
   */
  lemma {:induction false} IngestSound(lines: seq<string>)
    requires Ingest(lines).Ok?
    ensures |Ingest(lines).value| <= |lines|
    ensures forall j :: 0 <= j < |Ingest(lines).value| ==> FromItsLine(lines, Ingest(lines).value[j])
    decreases |lines|
  {
    if lines != [] {
      var n := |lines| - 1;
      var init := lines[..n];
      IngestSound(init);
      ParseLineShape(lines[n], |lines|);
      var pages := Ingest(lines).value;
      var before := Ingest(init).value;
      forall j | 0 <= j < |pages| ensures FromItsLine(lines, pages[j]) {
        if j < |before| {
          assert pages[j] == before[j];
          assert FromItsLine(init, before[j]);
          assert lines[before[j].pageNumber - 1] == init[before[j].pageNumber - 1];
        }
      }
    }
  }

  /** Page numbers strictly increase along the output. */
  lemma {:induction false} IngestIncreasing(lines: seq<string>)
    requires Ingest(lines).Ok?
    ensures forall j1, j2 :: 0 <= j1 < j2 < |Ingest(lines).value| ==>
              Ingest(lines).value[j1].pageNumber < Ingest(lines).value[j2].pageNumber
    decreases |lines|
  {
    if lines != [] {
      var n := |lines| - 1;
      var init := lines[..n];
      IngestIncreasing(init);
      IngestSound(init);
      ParseLineShape(lines[n], |lines|);
    }
  }

  /** Every record line gives a page, numbered by its position. */
  lemma {:induction false} IngestComplete(lines: seq<string>)
    requires Ingest(lines).Ok?
    ensures forall i :: 0 <= i < |lines| && IsRecordLine(lines[i]) ==>
              exists j :: 0 <= j < |Ingest(lines).value| && Ingest(lines).value[j].pageNumber == i + 1
    decreases |lines|
  {
    if lines != [] {
      var n := |lines| - 1;
      var init := lines[..n];
      IngestComplete(init);
      ParseLineShape(lines[n], |lines|);
      assert forall i :: 0 <= i < n ==> init[i] == lines[i];
      var pages := Ingest(lines).value;
      var before := Ingest(init).value;
      assert forall j :: 0 <= j < |before| ==> pages[j] == before[j];
      if IsRecordLine(lines[n]) {
        IngestFailsIff(lines);
        assert Converts(lines[n]);
        assert pages[|before|].pageNumber == n + 1;
      }
    }
  }

  /** A skipped line before a record still uses up a page number. */
  lemma SkippedLineLeavesGap(header: string, record: string)
    requires !IsRecordLine(header)
    requires IsRecordLine(record) && Converts(record)
    ensures Ingest([header, record]) == Ok([PageOf(record, 2)])
    ensures PageOf(record, 2).GetNumber() == 2
  {
    ParseLineShape(header, 1);
    ParseLineShape(record, 2);
    var lines := [header, record];
    assert lines[..1] == [header];
    assert [header][..0] == [];
    assert Ingest([header]) == Ok([]);
    assert lines[|lines| - 1] == record;
    assert Ingest(lines) == Ok([] + [PageOf(record, 2)]);
    assert [] + [PageOf(record, 2)] == [PageOf(record, 2)];
  }
}
