/**
 * `load_ground_truth` in scripts/calibrate.py: every line of the ground-truth
 * file is cleaned of newlines and spaces and split on commas; the table of
 * fields is then turned into a two-dimensional numpy array and its first
 * column, the point id, is dropped.
 *
 * Reading the file is left to the caller (the lines are an input, each with
 * its trailing newline as Python's file iteration yields it), and tokens
 * stay strings: the conversion to float64 is not part of this model.
 */
module GroundTruth {
  import opened Wrappers

  /** `s.replace(ch, '')`. */
  function RemoveAll(s: string, ch: char): (r: string)
    ensures forall c :: c in r <==> c in s && c != ch
    ensures ch !in s ==> r == s
  {
    if s == [] then []
    else
      assert s == [s[0]] + s[1..];
      (if s[0] == ch then [] else [s[0]]) + RemoveAll(s[1..], ch)
  }

  /** Every other character keeps its count; `ch` is gone. */
  lemma {:induction false} RemoveAllCounts(s: string, ch: char)
    ensures multiset(RemoveAll(s, ch)) == multiset(s)[ch := 0]
  {
    if s != [] {
      RemoveAllCounts(s[1..], ch);
      assert s == [s[0]] + s[1..];
    }
  }

  /** Removal works piece by piece, so it keeps the order of what it keeps. */
  lemma {:induction false} RemoveAllAppend(a: string, b: string, ch: char)
    ensures RemoveAll(a + b, ch) == RemoveAll(a, ch) + RemoveAll(b, ch)
  {
    if a != [] {
      var h := if a[0] == ch then [] else [a[0]];
      assert (a + b)[0] == a[0] && (a + b)[1..] == a[1..] + b;
      assert RemoveAll(a + b, ch) == h + RemoveAll(a[1..] + b, ch);
      RemoveAllAppend(a[1..], b, ch);
      assert RemoveAll(a, ch) == h + RemoveAll(a[1..], ch);
    } else {
      assert a + b == b;
    }
  }

  /** `line.replace('\n', '').replace(' ', '')`. */
  function Clean(line: string): (r: string)
    ensures '\n' !in r && ' ' !in r
  {
    RemoveAll(RemoveAll(line, '\n'), ' ')
  }

  /** Cleaning keeps every other character with its count. */
  lemma CleanCounts(line: string)
    ensures multiset(Clean(line)) == multiset(line)['\n' := 0][' ' := 0]
  {
    RemoveAllCounts(line, '\n');
    RemoveAllCounts(RemoveAll(line, '\n'), ' ');
  }

  /**
   * Cleaning works piece by piece: the cleaned line is the line's own
   * characters, in their order, with newlines and spaces dropped.
   */
  lemma CleanAppend(a: string, b: string)
    ensures Clean(a + b) == Clean(a) + Clean(b)
  {
    RemoveAllAppend(a, b, '\n');
    RemoveAllAppend(RemoveAll(a, '\n'), RemoveAll(b, '\n'), ' ');
  }

  /** A single character survives cleaning unchanged unless it is a newline or a space. */
  lemma CleanChar(c: char)
    ensures Clean([c]) == if c == '\n' || c == ' ' then [] else [c]
  {
    assert [c][1..] == [];
  }

  /** Cleaning a clean line changes nothing. */
  lemma CleanIdempotent(line: string)
    ensures Clean(Clean(line)) == Clean(line)
  {
  }

  /**
   * Python's `s.split(sep)` with an explicit separator: the pieces between
   * separators, empty ones included, so there is always at least one.
   */
  function Split(s: string, sep: char): (fields: seq<string>)
    ensures |fields| >= 1
    ensures forall i :: 0 <= i < |fields| ==> sep !in fields[i]
  {
    if s == [] then [[]]
    else
      assert s == [s[0]] + s[1..];
      var rest := Split(s[1..], sep);
      if s[0] == sep then [[]] + rest else [[s[0]] + rest[0]] + rest[1..]
  }

  /** One more field than separators. */
  lemma {:induction false} SplitCount(s: string, sep: char)
    ensures |Split(s, sep)| == multiset(s)[sep] + 1
  {
    if s != [] {
      SplitCount(s[1..], sep);
      assert s == [s[0]] + s[1..];
    }
  }

  /** `sep.join(fields)`. */
  function Join(fields: seq<string>, sep: char): string
    requires |fields| >= 1
  {
    if |fields| == 1 then fields[0] else fields[0] + [sep] + Join(fields[1..], sep)
  }

  /** Joining the pieces with the separator gives back the string. */
  lemma {:induction false} JoinSplit(s: string, sep: char)
    ensures Join(Split(s, sep), sep) == s
  {
    if s != [] {
      var rest := Split(s[1..], sep);
      JoinSplit(s[1..], sep);
      if s[0] == sep {
        assert Split(s, sep) == [[]] + rest;
      } else {
        var fields := Split(s, sep);
        assert fields == [[s[0]] + rest[0]] + rest[1..];
        if |rest| == 1 {
          assert Join(fields, sep) == [s[0]] + rest[0];
        } else {
          assert fields[1..] == rest[1..];
          assert Join(fields, sep) == [s[0]] + (rest[0] + [sep] + Join(rest[1..], sep));
        }
      }
    }
  }

  /** Splitting a join of separator-free pieces gives back the pieces. */
  lemma {:induction false} SplitJoin(fields: seq<string>, sep: char)
    requires |fields| >= 1
    requires forall i :: 0 <= i < |fields| ==> sep !in fields[i]
    ensures Split(Join(fields, sep), sep) == fields
    decreases |fields|, |fields[0]|
  {
    var f := fields[0];
    if |fields| == 1 {
      SplitFree(f, sep);
    } else if f == [] {
      SplitJoin(fields[1..], sep);
      assert Join(fields, sep) == [sep] + Join(fields[1..], sep);
      assert Join(fields, sep)[1..] == Join(fields[1..], sep);
    } else {
      var shorter := [f[1..]] + fields[1..];
      assert shorter[1..] == fields[1..];
      SplitJoin(shorter, sep);
      assert Join(fields, sep) == [f[0]] + Join(shorter, sep);
      assert Join(fields, sep)[1..] == Join(shorter, sep);
      assert [f[0]] + f[1..] == f;
    }
  }

  /** A separator-free string splits into itself alone. */
  lemma {:induction false} SplitFree(s: string, sep: char)
    requires sep !in s
    ensures Split(s, sep) == [s]
  {
    if s != [] {
      SplitFree(s[1..], sep);
      assert [s[0]] + s[1..] == s;
    }
  }

  const Comma: char := ','

  /** The fields of one ground-truth line: id first, then the coordinates. */
  function ParseLine(line: string): (fields: seq<string>)
    ensures |fields| >= 1
  {
    Split(Clean(line), Comma)
  }

  /**
   * A line's fields are free of commas, spaces and newlines, and joined
   * with commas they are the cleaned line.
   */
  lemma ParseLineFields(line: string)
    ensures |ParseLine(line)| >= 1
    ensures forall i :: 0 <= i < |ParseLine(line)| ==>
      Comma !in ParseLine(line)[i] && ' ' !in ParseLine(line)[i] && '\n' !in ParseLine(line)[i]
    ensures Join(ParseLine(line), Comma) == Clean(line)
  {
    var cleaned := Clean(line);
    JoinSplit(cleaned, Comma);
    FieldsOfJoin(Split(cleaned, Comma), Comma);
  }

  /** A piece of a join has no character the join lacks. */
  lemma {:induction false} FieldsOfJoin(fields: seq<string>, sep: char)
    requires |fields| >= 1
    ensures forall i, c :: 0 <= i < |fields| && c in fields[i] ==> c in Join(fields, sep)
  {
    if |fields| > 1 {
      FieldsOfJoin(fields[1..], sep);
      var j := Join(fields, sep);
      assert j == fields[0] + ([sep] + Join(fields[1..], sep));
      forall i, c | 0 <= i < |fields| && c in fields[i]
        ensures c in j
      {
        if i > 0 {
          assert fields[i] == fields[1..][i - 1];
          assert c in Join(fields[1..], sep);
        }
      }
    }
  }

  /** The table `gt` after the per-line loop: one row of fields per line, appended in order. */
  function ParseAll(lines: seq<string>): (gt: seq<seq<string>>)
    ensures |gt| == |lines|
    ensures forall j :: 0 <= j < |lines| ==> gt[j] == ParseLine(lines[j])
  {
    if lines == [] then []
    else ParseAll(lines[..|lines| - 1]) + [ParseLine(lines[|lines| - 1])]
  }

  /** `for line in fstream: gt.append(cleanline.split(','))`. */
  method ParseLines(lines: seq<string>) returns (gt: seq<seq<string>>)
    ensures gt == ParseAll(lines)
  {
    gt := [];
    for i := 0 to |lines|
      invariant gt == ParseAll(lines[..i])
    {
      assert lines[..i + 1][..i] == lines[..i];
      gt := gt + [ParseLine(lines[i])];
    }
    assert lines[..|lines|] == lines;
  }

  /** Why `np.array(gt, dtype=float64)[:, 1:]` fails on a table of fields. */
  datatype TableError =
    | NoRows    // an empty file gives a one-dimensional array, which has no second axis
    | Ragged    // rows with different numbers of fields do not form a two-dimensional array

  predicate Rectangular(gt: seq<seq<string>>)
  {
    forall i, j :: 0 <= i < |gt| && 0 <= j < |gt| ==> |gt[i]| == |gt[j]|
  }

  /** Python's `row[1:]`: everything after the first entry, empty if there is none. */
  function DropFirst(row: seq<string>): seq<string>
  {
    if row == [] then [] else row[1..]
  }

  /** `gt[:, 1:]` on the array made from `gt`: every row without its first field. */
  function DropIds(gt: seq<seq<string>>): (r: Result<seq<seq<string>>, TableError>)
    ensures r.Err? <==> gt == [] || !Rectangular(gt)
    ensures r == Err(NoRows) <==> gt == []
    ensures r.Ok? ==> |r.value| == |gt| && Rectangular(r.value)
    ensures r.Ok? ==> forall i :: 0 <= i < |gt| && gt[i] != [] ==> [gt[i][0]] + r.value[i] == gt[i]
    ensures r.Ok? ==> forall i :: 0 <= i < |gt| && gt[i] == [] ==> r.value[i] == []
  {
    if gt == [] then Err(NoRows)
    else if !Rectangular(gt) then Err(Ragged)
    else Ok(seq(|gt|, i requires 0 <= i < |gt| => DropFirst(gt[i])))
  }

  /** `load_ground_truth` on the lines of a file, up to the float conversion. */
  method LoadGroundTruth(lines: seq<string>) returns (r: Result<seq<seq<string>>, TableError>)
    ensures r == Err(NoRows) <==> lines == []
    ensures r == Err(Ragged) <==> lines != [] && !Rectangular(ParseAll(lines))
    ensures r.Ok? ==> |r.value| == |lines|
    ensures r.Ok? ==> forall i :: 0 <= i < |lines| ==>
      |r.value[i]| == |ParseLine(lines[i])| - 1 && r.value[i] == ParseLine(lines[i])[1..]
  {
    var gt := ParseLines(lines);
    r := DropIds(gt);
  }
}
