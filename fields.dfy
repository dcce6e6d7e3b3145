/** Splitting one line of a data file into its positional fields (`line.Split('\t')`). */
module Fields {

  /** The field separator of the data files. */
  const Tab: char := '\t'

  /** The fields of `line` as `String.Split(char)` returns them: every occurrence of `sep`
      ends a field, empty fields are kept, and there is always at least one field. */
  function Split(line: string, sep: char): (fields: seq<string>)
    ensures |fields| >= 1
    ensures forall i :: 0 <= i < |fields| ==> sep !in fields[i]
    decreases |line|
  {
    if line == [] then [""]
    else
      var rest := Split(line[1..], sep);
      if line[0] == sep then [""] + rest
      else [[line[0]] + rest[0]] + rest[1..]
  }

  /** The inverse of `Split`: the fields glued back together with `sep`. */
  function Join(fields: seq<string>, sep: char): string
    requires |fields| >= 1
    decreases |fields|
  {
    if |fields| == 1 then fields[0] else fields[0] + [sep] + Join(fields[1..], sep)
  }

  /** Splitting loses nothing: the fields joined with the separator give the line back. */
  lemma {:induction false} JoinSplit(line: string, sep: char)
    ensures Join(Split(line, sep), sep) == line
    decreases |line|
  {
    if line != [] {
      JoinSplit(line[1..], sep);
      var rest := Split(line[1..], sep);
      if line[0] == sep {
        var fields := [""] + rest;
        assert fields[1..] == rest;
        assert line == [sep] + line[1..];
      } else {
        var fields := [[line[0]] + rest[0]] + rest[1..];
        assert fields[1..] == rest[1..];
        assert line == [line[0]] + line[1..];
      }
    }
  }

  /** A field free of the separator, followed by the separator, is split off as one field. */
  lemma {:induction false} SplitAfterField(field: string, sep: char, tail: string)
    requires sep !in field
    ensures Split(field + [sep] + tail, sep) == [field] + Split(tail, sep)
    decreases |field|
  {
    var line := field + [sep] + tail;
    if field == [] {
      assert line == [sep] + tail;
      assert line[1..] == tail;
    } else {
      assert line[1..] == field[1..] + [sep] + tail;
      SplitAfterField(field[1..], sep, tail);
      assert [field[0]] + field[1..] == field;
    }
  }

  /** A field free of the separator splits into itself alone. */
  lemma {:induction false} SplitField(field: string, sep: char)
    requires sep !in field
    ensures Split(field, sep) == [field]
    decreases |field|
  {
    if field != [] {
      SplitField(field[1..], sep);
      assert [field[0]] + field[1..] == field;
    }
  }

  /** Fields without the separator survive a join and a split unchanged. */
  lemma {:induction false} SplitJoin(fields: seq<string>, sep: char)
    requires |fields| >= 1
    requires forall i :: 0 <= i < |fields| ==> sep !in fields[i]
    ensures Split(Join(fields, sep), sep) == fields
    decreases |fields|
  {
    if |fields| == 1 {
      SplitField(fields[0], sep);
    } else {
      SplitJoin(fields[1..], sep);
      SplitAfterField(fields[0], sep, Join(fields[1..], sep));
      assert [fields[0]] + fields[1..] == fields;
    }
  }
}
