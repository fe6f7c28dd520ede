/** The row tokeniser `parseCSVLine` of lib/nacebelData.ts: a comma splitter in
    which every `"` toggles an "inside quotes" flag and is itself dropped, a
    comma outside quotes ends a field, and each field is trimmed. A doubled
    quote is therefore not an escape (as it is in section 2 item 7 of
    RFC 4180): it toggles the flag twice and contributes nothing. */
module CsvLine {
  import opened Strings

  /** The loop state after a prefix of the line: the finished fields (not yet
      trimmed), the field being read, and the quote flag. */
  datatype ScanState = ScanState(done: seq<string>, current: string, inQuotes: bool)

  function Step(st: ScanState, c: char): ScanState
  {
    if c == '"' then st.(inQuotes := !st.inQuotes)
    else if c == ',' && !st.inQuotes then ScanState(st.done + [st.current], [], st.inQuotes)
    else st.(current := st.current + [c])
  }

  function Scan(line: string): ScanState
  {
    if line == [] then ScanState([], [], false)
    else Step(Scan(line[..|line| - 1]), line[|line| - 1])
  }

  /** The fields before trimming. */
  function RawFields(line: string): seq<string>
  {
    Scan(line).done + [Scan(line).current]
  }

  function TrimAll(fields: seq<string>): (r: seq<string>)
    ensures |r| == |fields|
    ensures forall i :: 0 <= i < |r| ==> r[i] == Trim(fields[i])
  {
    seq(|fields|, i requires 0 <= i < |fields| => Trim(fields[i]))
  }

  /** The quote flag is set after an odd number of quotes. */
  predicate InQuotes(s: string)
  {
    Count(s, '"') % 2 == 1
  }

  /** The commas that are not inside a quoted span: those preceded by an even
      number of quotes. */
  function CommasOutsideQuotes(s: string): nat
  {
    if s == [] then 0
    else
      var prefix := s[..|s| - 1];
      CommasOutsideQuotes(prefix) + (if s[|s| - 1] == ',' && !InQuotes(prefix) then 1 else 0)
  }

  /** What the tokeniser returns for a line: never an empty list. */
  function ParseLine(line: string): (fields: seq<string>)
    ensures |fields| >= 1
  {
    TrimAll(RawFields(line))
  }

  /** No field holds a quote, and every field is trimmed. */
  lemma FieldsAreClean(line: string)
    ensures forall i :: 0 <= i < |ParseLine(line)| ==> '"' !in ParseLine(line)[i] && IsTrimmed(ParseLine(line)[i])
  {
    var raw := RawFields(line);
    NoQuoteInRawFields(line);
    forall i | 0 <= i < |raw| ensures '"' !in Trim(raw[i]) {
      TrimIsInfix(raw[i]);
    }
  }

  lemma {:induction false} NoQuoteInRawFields(line: string)
    ensures forall i :: 0 <= i < |RawFields(line)| ==> '"' !in RawFields(line)[i]
  {
    if line != [] {
      var prefix := line[..|line| - 1];
      var c := line[|line| - 1];
      var st := Scan(prefix);
      NoQuoteInRawFields(prefix);
      assert forall i :: 0 <= i < |st.done| ==> '"' !in st.done[i] by {
        forall i | 0 <= i < |st.done| ensures '"' !in st.done[i] {
          assert st.done[i] == RawFields(prefix)[i];
        }
      }
      assert '"' !in st.current by {
        assert st.current == RawFields(prefix)[|st.done|];
      }
    }
  }

  lemma PrefixOfAppend(s: string, c: char)
    ensures (s + [c])[..|s + [c]| - 1] == s
  {
  }

  /** The flag of the loop is the parity of the quotes read so far. */
  lemma {:induction false} ScanInQuotes(line: string)
    ensures Scan(line).inQuotes == InQuotes(line)
  {
    if line != [] {
      var prefix := line[..|line| - 1];
      ScanInQuotes(prefix);
      assert line == prefix + [line[|line| - 1]];
      CountConcat(prefix, [line[|line| - 1]], '"');
    }
  }

  /** One finished field per comma outside quotes. */
  lemma {:induction false} ScanFieldCount(line: string)
    ensures |Scan(line).done| == CommasOutsideQuotes(line)
  {
    if line != [] {
      var prefix := line[..|line| - 1];
      ScanFieldCount(prefix);
      ScanInQuotes(prefix);
    }
  }

  /** The number of fields is one more than the number of commas outside
      quotes. */
  lemma FieldCount(line: string)
    ensures |ParseLine(line)| == 1 + CommasOutsideQuotes(line)
  {
    ScanFieldCount(line);
  }

  lemma JoinAppend(parts: seq<string>, sep: string, last: string)
    requires parts != []
    ensures Join(parts + [last], sep) == Join(parts, sep) + sep + last
  {
    if |parts| > 1 {
      assert (parts + [last])[1..] == parts[1..] + [last];
      JoinAppend(parts[1..], sep, last);
    }
  }

  lemma JoinExtendLast(parts: seq<string>, sep: string, last: string, more: string)
    ensures Join(parts + [last + more], sep) == Join(parts + [last], sep) + more
  {
    if parts != [] {
      JoinAppend(parts, sep, last + more);
      JoinAppend(parts, sep, last);
    }
  }

  /** Joining the untrimmed fields with commas gives back the line without its
      quotes: every other character, a comma inside quotes included, ends up
      in a field, in order. */
  lemma {:induction false} FieldsRebuildLine(line: string)
    ensures Join(RawFields(line), ",") == RemoveChar(line, '"')
  {
    if line != [] {
      var prefix := line[..|line| - 1];
      var c := line[|line| - 1];
      var st := Scan(prefix);
      FieldsRebuildLine(prefix);
      assert line == prefix + [c];
      RemoveCharConcat(prefix, [c], '"');
      assert RemoveChar([c], '"') == (if c == '"' then [] else [c]) + RemoveChar([], '"');
      if c == '"' {
      } else if c == ',' && !st.inQuotes {
        JoinAppend(st.done + [st.current], ",", []);
        assert RawFields(line) == st.done + [st.current] + [[]];
      } else {
        JoinExtendLast(st.done, ",", st.current, [c]);
      }
    }
  }

  /** The tokeniser's state after `x + tail` depends on `x` only through the
      state after `x`. */
  lemma {:induction false} ScanCongruence(x: string, y: string, tail: string)
    requires Scan(x) == Scan(y)
    ensures Scan(x + tail) == Scan(y + tail)
  {
    if tail == [] {
      assert x + tail == x && y + tail == y;
    } else {
      var t := tail[..|tail| - 1];
      var c := tail[|tail| - 1];
      ScanCongruence(x, y, t);
      assert (x + tail)[..|x + tail| - 1] == x + t;
      assert (y + tail)[..|y + tail| - 1] == y + t;
    }
  }

  /** A doubled quote contributes nothing to any field, inside quotes or out. */
  lemma DoubledQuoteVanishes(before: string, after: string)
    ensures ParseLine(before + "\"\"" + after) == ParseLine(before + after)
  {
    var x := before + "\"\"";
    assert x[..|x| - 1] == before + "\"";
    assert (before + "\"")[..|before + "\""| - 1] == before;
    ScanCongruence(x, before, after);
  }

  lemma ScanSnoc(s: string, c: char)
    ensures Scan(s + [c]) == Step(Scan(s), c)
  {
    PrefixOfAppend(s, c);
  }

  /** Inside quotes, every character that is not a quote, commas included,
      is appended to the current field. */
  lemma {:induction false} ScanInsideQuotes(y: string, body: string)
    requires Scan(y).inQuotes && '"' !in body
    ensures Scan(y + body) == Scan(y).(current := Scan(y).current + body)
  {
    if body == [] {
      assert y + body == y;
    } else {
      var b := body[..|body| - 1];
      var c := body[|body| - 1];
      assert body == b + [c];
      ScanInsideQuotes(y, b);
      assert y + body == (y + b) + [c];
      ScanSnoc(y + b, c);
      assert Scan(y).current + b + [c] == Scan(y).current + body;
    }
  }

  /** A quoted span that opens outside quotes adds its whole content, commas
      included, to the current field, and leaves the flag cleared. */
  lemma QuotedSpan(x: string, body: string)
    requires !Scan(x).inQuotes && '"' !in body
    ensures Scan(x + "\"" + body + "\"") == Scan(x).(current := Scan(x).current + body)
  {
    ScanSnoc(x, '"');
    ScanInsideQuotes(x + "\"", body);
    ScanSnoc(x + "\"" + body, '"');
  }

  /** `parseCSVLine`. */
  method ParseCSVLine(line: string) returns (fields: seq<string>)
    ensures fields == ParseLine(line)
    ensures |fields| == 1 + CommasOutsideQuotes(line)
    ensures forall i :: 0 <= i < |fields| ==> '"' !in fields[i] && IsTrimmed(fields[i])
  {
    var result: seq<string> := [];
    var current: string := "";
    var inQuotes := false;
    for i := 0 to |line|
      invariant Scan(line[..i]).current == current && Scan(line[..i]).inQuotes == inQuotes
      invariant result == TrimAll(Scan(line[..i]).done)
    {
      assert line[..i + 1] == line[..i] + [line[i]];
      ScanSnoc(line[..i], line[i]);
      var c := line[i];
      if c == '"' {
        inQuotes := !inQuotes;
      } else if c == ',' && !inQuotes {
        result := result + [Trim(current)];
        current := "";
      } else {
        current := current + [c];
      }
    }
    assert line[..|line|] == line;
    result := result + [Trim(current)];
    fields := result;
    FieldCount(line);
    FieldsAreClean(line);
  }
}
