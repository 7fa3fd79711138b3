/** The string operations `getCallableByLineContent` relies on (src/index.ts):
    splitting source text on the newline character, substring containment,
    and the index of the first line that contains a given text. */
module JsText {
  import opened Utils

  /** `code.split('\n')`: the pieces between newline characters, so there is
      always one more piece than there are newlines. Only `'\n'` separates;
      a carriage return stays inside its piece. */
  function Split(s: string): (lines: seq<string>)
    ensures |lines| == NewlineCount(s) + 1
    ensures forall i :: 0 <= i < |lines| ==> '\n' !in lines[i]
    decreases |s|
  {
    if s == [] then [""]
    else
      var rest := Split(s[1..]);
      if s[0] == '\n' then [""] + rest
      else [[s[0]] + rest[0]] + rest[1..]
  }

  /** The number of newline characters in `s`. */
  function NewlineCount(s: string): nat
    decreases |s|
  {
    if s == [] then 0 else (if s[0] == '\n' then 1 else 0) + NewlineCount(s[1..])
  }

  /** The lines glued back together with a newline between neighbours. */
  function Join(lines: seq<string>): string
    requires |lines| >= 1
  {
    if |lines| == 1 then lines[0] else lines[0] + "\n" + Join(lines[1..])
  }

  /** Splitting loses nothing: joining the lines gives back the text. */
  lemma {:induction false} JoinSplit(s: string)
    ensures Join(Split(s)) == s
    decreases |s|
  {
    if s != [] {
      JoinSplit(s[1..]);
      var rest := Split(s[1..]);
      if s[0] == '\n' {
        assert Split(s) == [""] + rest;
        assert ([""] + rest)[1..] == rest;
        assert Join(Split(s)) == "" + "\n" + Join(rest);
        assert s == [s[0]] + s[1..];
      } else {
        var lines := Split(s);
        assert lines == [[s[0]] + rest[0]] + rest[1..];
        if |rest| == 1 {
          assert Join(lines) == [s[0]] + rest[0];
        } else {
          assert lines[1..] == rest[1..];
          assert Join(rest) == rest[0] + "\n" + Join(rest[1..]);
          assert Join(lines) == [s[0]] + rest[0] + "\n" + Join(rest[1..]);
        }
        assert s == [s[0]] + s[1..];
      }
    }
  }

  /** `part` occurs in `line` starting at index `i`. */
  predicate OccursAt(line: string, part: string, i: int)
  {
    0 <= i && i + |part| <= |line| && line[i..i + |part|] == part
  }

  /** `line.includes(part)`. */
  predicate Includes(line: string, part: string)
  {
    exists i :: 0 <= i <= |line| - |part| && OccursAt(line, part, i)
  }

  /** Every line contains the empty text, and the empty line contains nothing
      else. */
  lemma IncludesEmpty(line: string, part: string)
    ensures Includes(line, "")
    ensures Includes("", part) <==> part == ""
  {
    assert OccursAt(line, "", 0);
    if part == "" {
      assert OccursAt("", part, 0);
    }
  }

  /** `lines.findIndex(l => l.includes(part))`: the lowest index of a line
      containing `part`, or None (`-1`) when no line contains it. */
  function FindIndex(lines: seq<string>, part: string): (r: Option<nat>)
    ensures r.Some? ==> r.value < |lines| && Includes(lines[r.value], part)
    ensures r.Some? ==> forall j :: 0 <= j < r.value ==> !Includes(lines[j], part)
    ensures r.None? <==> forall j :: 0 <= j < |lines| ==> !Includes(lines[j], part)
  {
    if lines == [] then None
    else if Includes(lines[0], part) then Some(0)
    else
      var r := FindIndex(lines[1..], part);
      if r.Some? then Some(r.value + 1) else None
  }

  /** The empty text is found on the first line of any source. */
  lemma EmptyContentOnFirstLine(code: string)
    ensures FindIndex(Split(code), "") == Some(0)
  {
    IncludesEmpty(Split(code)[0], "");
  }

  /** The empty text is one empty line, which only the empty text matches. */
  lemma EmptyTextLines(part: string)
    ensures Split("") == [""]
    ensures FindIndex(Split(""), part) == if part == "" then Some(0) else None
  {
    IncludesEmpty("", part);
  }
}
