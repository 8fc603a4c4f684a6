/**
 * The NDJSON members of an archive: the buffered line writer `createLineSpool`
 * and the chunk-at-a-time reader `lines` of packages/db/src/archive-file.ts.
 * Compression is the identity here; text is the decoded characters.
 */
module LineStream {

  function JoinLines(lines: seq<string>): string {
    if lines == [] then "" else JoinLines(lines[..|lines| - 1]) + lines[|lines| - 1] + "\n"
  }

  function Flatten(parts: seq<string>): string {
    if parts == [] then "" else Flatten(parts[..|parts| - 1]) + parts[|parts| - 1]
  }

  /** The complete lines of `text`. */
  function FullLines(text: string): seq<string> {
    if text == "" then []
    else
      var init := text[..|text| - 1];
      if text[|text| - 1] == '\n' then FullLines(init) + [Tail(init)] else FullLines(init)
  }

  /** What stands behind the last newline. */
  function Tail(text: string): string {
    if text == "" || text[|text| - 1] == '\n' then "" else Tail(text[..|text| - 1]) + [text[|text| - 1]]
  }

  /** The lines of a whole text: the complete ones, and an unterminated last one. */
  function LinesOf(text: string): seq<string> {
    FullLines(text) + if Tail(text) == "" then [] else [Tail(text)]
  }

  // ----- the writer --------------------------------------------------------

  class LineSpool {
    const threshold: nat
    var compressed: string
    var pending: seq<string>
    var pendingBytes: nat
    var lines: nat

    /** Everything handed over so far, flushed or not. */
    function Contents(): string
      reads this
    {
      compressed + Flatten(pending)
    }

    /** The buffer is accounted for exactly, and never outgrows the threshold. */
    predicate Valid()
      reads this
    {
      pendingBytes == |Flatten(pending)| && (pending != [] ==> pendingBytes < threshold)
    }

    constructor (threshold: nat)
      ensures Valid() && Contents() == "" && lines == 0 && this.threshold == threshold
    {
      this.threshold := threshold;
      compressed, pending, pendingBytes, lines := "", [], 0, 0;
    }

    method Flush()
      modifies this
      ensures compressed == old(Contents()) && pending == [] && lines == old(lines)
      ensures old(pending) == [] ==> pendingBytes == old(pendingBytes)
      ensures old(pending) != [] ==> pendingBytes == 0
    {
      if |pending| == 0 { return; }
      compressed := compressed + Flatten(pending);
      pending := [];
      pendingBytes := 0;
    }

    method Write(line: string)
      requires Valid()
      modifies this
      ensures Valid()
      ensures Contents() == old(Contents()) + line + "\n"
      ensures lines == old(lines) + 1
    {
      lines := lines + 1;
      LineIsFlattened(pending, line);
      ghost var all := Contents();
      assert compressed + (Flatten(pending) + line + "\n") == all + line + "\n";
      pending := pending + [line, "\n"];
      pendingBytes := pendingBytes + |line| + 1;
      if pendingBytes >= threshold { Flush(); }
    }

    /** The finished member: its text and its line count. */
    method Close() returns (text: string, count: nat)
      requires Valid()
      modifies this
      ensures text == old(Contents()) == compressed && count == old(lines)
    {
      Flush();
      text, count := compressed, lines;
    }
  }

  method SpoolAll(lines: seq<string>, threshold: nat) returns (text: string, count: nat)
    ensures text == JoinLines(lines) && count == |lines|
  {
    var spool := new LineSpool(threshold);
    for i := 0 to |lines|
      invariant spool.Valid() && spool.lines == i
      invariant spool.Contents() == JoinLines(lines[..i])
    {
      spool.Write(lines[i]);
      assert lines[..i + 1][..i] == lines[..i];
    }
    assert lines[..|lines|] == lines;
    text, count := spool.Close();
  }

  // ----- the reader --------------------------------------------------------

  /** `text.indexOf("\n")`, with the length for -1. */
  function NewlineAt(text: string): (i: nat)
    ensures i <= |text|
    ensures forall k :: 0 <= k < i ==> text[k] != '\n'
    ensures i < |text| ==> text[i] == '\n'
  {
    if text == "" || text[0] == '\n' then 0 else 1 + NewlineAt(text[1..])
  }

  /** The inner loop of the reader: yield every complete line, carry the rest. */
  method TakeLines(text: string) returns (out: seq<string>, carry: string)
    ensures out == FullLines(text) && carry == Tail(text)
  {
    out, carry := [], text;
    var nl := NewlineAt(carry);
    while nl < |carry|
      invariant nl == NewlineAt(carry)
      invariant out + FullLines(carry) == FullLines(text) && Tail(carry) == Tail(text)
      decreases |carry|
    {
      var line, rest := carry[..nl], carry[nl + 1..];
      assert carry == line + "\n" + rest;
      FirstLine(line, rest);
      ghost var later := FullLines(rest);
      assert out + ([line] + later) == (out + [line]) + later;
      out, carry := out + [line], rest;
      nl := NewlineAt(carry);
    }
    NoNewline(carry);
  }

  /** Whatever way the text is cut into chunks, the lines of the whole text come out. */
  method ReadLines(chunks: seq<string>) returns (out: seq<string>)
    ensures out == LinesOf(Flatten(chunks))
  {
    out := [];
    var carry := "";
    for i := 0 to |chunks|
      invariant out == FullLines(Flatten(chunks[..i])) && carry == Tail(Flatten(chunks[..i]))
    {
      assert chunks[..i + 1][..i] == chunks[..i];
      FullLinesConcat(Flatten(chunks[..i]), chunks[i]);
      var yielded;
      yielded, carry := TakeLines(carry + chunks[i]);
      out := out + yielded;
    }
    assert chunks[..|chunks|] == chunks;
    if |carry| > 0 { out := out + [carry]; }
  }

  // ----- writer against reader ---------------------------------------------

  predicate NewlineFree(lines: seq<string>) {
    forall i :: 0 <= i < |lines| ==> '\n' !in lines[i]
  }

  lemma FlattenSnoc(parts: seq<string>, part: string)
    ensures Flatten(parts + [part]) == Flatten(parts) + part
  {
    assert (parts + [part])[..|parts|] == parts;
  }

  lemma LineIsFlattened(parts: seq<string>, line: string)
    ensures Flatten(parts + [line, "\n"]) == Flatten(parts) + line + "\n"
  {
    FlattenSnoc(parts, line);
    FlattenSnoc(parts + [line], "\n");
    assert parts + [line] + ["\n"] == parts + [line, "\n"];
  }

  lemma {:induction false} NoNewline(text: string)
    requires '\n' !in text
    ensures FullLines(text) == [] && Tail(text) == text
  {
    if text != "" { NoNewline(text[..|text| - 1]); }
  }

  /** Appending text continues from the unterminated tail. */
  lemma {:induction false} FullLinesConcat(text: string, more: string)
    ensures FullLines(text + more) == FullLines(text) + FullLines(Tail(text) + more)
    ensures Tail(text + more) == Tail(Tail(text) + more)
  {
    if more == "" {
      assert text + more == text && Tail(text) + more == Tail(text);
      TailHasNoNewline(text);
      NoNewline(Tail(text));
    } else {
      var init := more[..|more| - 1];
      FullLinesConcat(text, init);
      assert (text + more)[..|text + more| - 1] == text + init;
      assert (Tail(text) + more)[..|Tail(text) + more| - 1] == Tail(text) + init;
    }
  }

  lemma {:induction false} TailHasNoNewline(text: string)
    ensures '\n' !in Tail(text)
  {
    if text != "" { TailHasNoNewline(text[..|text| - 1]); }
  }

  /** A line appended to text that ends in a newline becomes its last line. */
  lemma LineAppended(text: string, line: string)
    requires Tail(text) == "" && '\n' !in line
    ensures FullLines(text + line + "\n") == FullLines(text) + [line] && Tail(text + line + "\n") == ""
  {
    assert (text + line + "\n")[..|text + line|] == text + line;
    FullLinesConcat(text, line);
    assert "" + line == line;
    NoNewline(line);
  }

  lemma OneLine(line: string)
    requires '\n' !in line
    ensures FullLines(line + "\n") == [line] && Tail(line + "\n") == ""
  {
    LineAppended("", line);
    assert "" + line == line;
  }

  lemma FirstLine(line: string, rest: string)
    requires '\n' !in line
    ensures FullLines(line + "\n" + rest) == [line] + FullLines(rest) && Tail(line + "\n" + rest) == Tail(rest)
  {
    OneLine(line);
    FullLinesConcat(line + "\n", rest);
    assert "" + rest == rest;
  }

  /** The reader inverts the writer on newline-free lines, empty ones included. */
  lemma {:induction false} LinesOfJoined(lines: seq<string>)
    requires NewlineFree(lines)
    ensures FullLines(JoinLines(lines)) == lines && Tail(JoinLines(lines)) == ""
    ensures LinesOf(JoinLines(lines)) == lines
  {
    if lines != [] {
      var init := lines[..|lines| - 1];
      LinesOfJoined(init);
      LineAppended(JoinLines(init), lines[|lines| - 1]);
    }
  }

  lemma JoinSnoc(lines: seq<string>, line: string)
    ensures JoinLines(lines + [line]) == JoinLines(lines) + line + "\n"
  {
    assert (lines + [line])[..|lines|] == lines;
  }

  lemma {:induction false} FullLinesKeepText(text: string)
    ensures JoinLines(FullLines(text)) + Tail(text) == text && NewlineFree(FullLines(text))
  {
    if text != "" {
      var init := text[..|text| - 1];
      FullLinesKeepText(init);
      TailHasNoNewline(init);
      assert text == init + [text[|text| - 1]];
      if text[|text| - 1] == '\n' { JoinSnoc(FullLines(init), Tail(init)); }
    }
  }

  /** No character is lost by reading: the lines rebuild the text, up to a missing final newline. */
  lemma JoinedLinesOf(text: string)
    ensures JoinLines(LinesOf(text)) == if Tail(text) == "" then text else text + "\n"
    ensures NewlineFree(LinesOf(text))
  {
    FullLinesKeepText(text);
    TailHasNoNewline(text);
    if Tail(text) != "" {
      assert LinesOf(text)[..|FullLines(text)|] == FullLines(text);
      assert JoinLines(LinesOf(text)) == JoinLines(FullLines(text)) + Tail(text) + "\n";
    } else {
      assert LinesOf(text) == FullLines(text);
    }
  }

  /** Spool, cut anywhere, read: exactly the lines written, in order, and as many as the spool counted. */
  method SpoolThenRead(lines: seq<string>, threshold: nat, chunks: seq<string>) returns (out: seq<string>, count: nat)
    requires NewlineFree(lines) && Flatten(chunks) == JoinLines(lines)
    ensures out == lines && count == |lines|
  {
    var text;
    text, count := SpoolAll(lines, threshold);
    LinesOfJoined(lines);
    out := ReadLines(chunks);
  }
}
