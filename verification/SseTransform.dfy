/**
  Body replacement in server-sent-event streams: a reader with arbitrary caller buffers
  refines a line-by-line map of the body.
 */
module SseTransform {
  import opened Bytes
  import opened Sequences

  const LF: byte := 10
  const CR: byte := 13
  const DATA: bytes := [100, 97, 116, 97, 58] // "data:"

  datatype BodyTransform = BodyTransform(find: bytes, replace: bytes)

  /** The replacements one after another, each over the result of those before it. */
  function Replaced(body: bytes, replacements: seq<BodyTransform>): bytes
    decreases |replacements|
  {
    if replacements == [] then body
    else
      var item := replacements[0];
      Replaced(if item.find == [] then body else ReplaceAll(body, item.find, item.replace), replacements[1..])
  }

  method ApplyBodyReplacements(body: bytes, replacements: seq<BodyTransform>) returns (out: bytes)
    ensures out == Replaced(body, replacements)
  {
    out := body;
    for i := 0 to |replacements|
      invariant Replaced(out, replacements[i..]) == Replaced(body, replacements)
    {
      var item := replacements[i];
      if item.find == [] {
        continue;
      }
      out := ReplaceAll(out, item.find, item.replace);
    }
  }

  /** The line terminator that a data line's payload keeps. */
  function Terminator(payload: bytes): (t: bytes)
    ensures HasSuffix(payload, t)
  {
    if HasSuffix(payload, [CR, LF]) then [CR, LF] else if HasSuffix(payload, [LF]) then [LF] else []
  }

  function TransformedLine(line: bytes, replacements: seq<BodyTransform>): bytes {
    if !(DATA <= line) then line
    else
      var payload := line[|DATA|..];
      var t := Terminator(payload);
      DATA + Replaced(payload[..|payload| - |t|], replacements) + t
  }

  method TransformSSEDataLine(line: bytes, replacements: seq<BodyTransform>) returns (out: bytes)
    ensures out == TransformedLine(line, replacements)
  {
    if !(DATA <= line) {
      return line;
    }
    var payload := line[|DATA|..];
    ghost var whole := payload;
    var suffix := [];
    if HasSuffix(payload, [CR, LF]) {
      suffix := [CR, LF];
      payload := payload[..|payload| - 2];
    } else if HasSuffix(payload, [LF]) {
      suffix := [LF];
      payload := payload[..|payload| - 1];
    }
    assert suffix == Terminator(whole) && payload == whole[..|whole| - |suffix|];
    payload := ApplyBodyReplacements(payload, replacements);
    out := DATA + payload + suffix;
  }

  /** The bytes up to and including the first line feed, or all of them. */
  function FirstLine(s: bytes): (line: bytes)
    ensures line <= s && (s != [] ==> line != [])
    ensures LF !in line[..if |line| == 0 then 0 else |line| - 1]
    ensures |line| < |s| ==> line[|line| - 1] == LF
  {
    if s == [] then [] else if s[0] == LF then [LF] else [s[0]] + FirstLine(s[1..])
  }

  function Lines(s: bytes): (lines: seq<bytes>) {
    if s == [] then [] else [FirstLine(s)] + Lines(s[|FirstLine(s)|..])
  }

  function MapLines(lines: seq<bytes>, replacements: seq<BodyTransform>): (out: seq<bytes>)
    ensures |out| == |lines|
    ensures forall i :: 0 <= i < |lines| ==> out[i] == TransformedLine(lines[i], replacements)
  {
    if lines == [] then [] else [TransformedLine(lines[0], replacements)] + MapLines(lines[1..], replacements)
  }

  /** What a client is to receive for a body. */
  function TransformedBody(body: bytes, replacements: seq<BodyTransform>): bytes {
    Concat(MapLines(Lines(body), replacements))
  }

  lemma TransformedBodyStep(body: bytes, replacements: seq<BodyTransform>)
    requires body != []
    ensures var line := FirstLine(body);
            TransformedBody(body, replacements)
            == TransformedLine(line, replacements) + TransformedBody(body[|line|..], replacements)
  {
    var lines := Lines(body);
    assert lines[1..] == Lines(body[|FirstLine(body)|..]);
    assert MapLines(lines, replacements)[1..] == MapLines(lines[1..], replacements);
  }

  lemma NothingLeft(replacements: seq<BodyTransform>)
    ensures TransformedBody([], replacements) == []
  {
  }

  datatype Status = Ok | Eof

  /** Go's `copy` into a caller's buffer. */
  method Copy(p: array<byte>, src: bytes) returns (n: nat)
    modifies p
    ensures n == if p.Length < |src| then p.Length else |src|
    ensures p[..n] == src[..n] && p[n..] == old(p[n..])
  {
    n := if p.Length < |src| then p.Length else |src|;
    forall i | 0 <= i < n {
      p[i] := src[i];
    }
  }

  class Reader {
    var body: bytes // what the buffered reader has not handed out yet
    const replacements: seq<BodyTransform>
    var pending: bytes
    var eof: bool

    /** Everything the client has still to receive. */
    ghost function Remaining(): bytes
      reads this
    {
      pending + if eof then [] else TransformedBody(body, replacements)
    }

    constructor (body: bytes, replacements: seq<BodyTransform>)
      ensures Remaining() == TransformedBody(body, replacements)
      ensures this.replacements == replacements
    {
      this.body, this.replacements, pending, eof := body, replacements, [], false;
    }

    /** `ReadBytes('\n')`: the next line, with end of file when no line feed ends it. */
    method ReadLine() returns (line: bytes, atEof: bool)
      modifies this`body
      ensures line == FirstLine(old(body)) && body == old(body)[|line|..]
      ensures atEof <==> LF !in line
      ensures atEof ==> body == []
    {
      line := FirstLine(body);
      atEof := LF !in line;
      assert atEof ==> |line| == |body|;
      body := body[|line|..];
    }

    /** The loop of `Read`: transforms lines until there is something to hand out, or nothing is left. */
    method Fill() returns (status: Status)
      modifies this
      ensures Remaining() == old(Remaining())
      ensures status.Eof? <==> pending == []
      ensures status.Eof? ==> Remaining() == []
    {
      while |pending| == 0
        invariant Remaining() == old(Remaining())
        decreases |body|, !eof, |pending| == 0
      {
        if eof {
          return Eof;
        }
        ghost var before := body;
        var line, atEof := ReadLine();
        NothingLeft(replacements);
        if atEof {
          eof := true;
          if |line| == 0 {
            return Eof;
          }
        }
        TransformedBodyStep(before, replacements);
        pending := TransformSSEDataLine(line, replacements);
      }
      status := Ok;
    }

    method Read(p: array<byte>) returns (n: nat, status: Status)
      modifies this, p
      ensures n <= p.Length && p[n..] == old(p[n..])
      ensures p[..n] + Remaining() == old(Remaining())
      ensures p.Length > 0 ==> (status.Eof? <==> old(Remaining()) == [])
      ensures p.Length > 0 && status.Ok? ==> n > 0
      ensures p.Length == 0 ==> n == 0 && status.Ok?
    {
      if p.Length == 0 {
        return 0, Ok;
      }
      status := Fill();
      if status.Eof? {
        return 0, Eof;
      }
      n := Copy(p, pending);
      ghost var rest := if eof then [] else TransformedBody(body, replacements);
      assert pending == pending[..n] + pending[n..];
      AppendChunk(pending[..n], pending[n..], rest);
      pending := pending[n..];
    }
  }

  lemma AppendChunk(out: bytes, chunk: bytes, rest: bytes)
    ensures out + (chunk + rest) == (out + chunk) + rest
  {
  }

  lemma SuffixElements(s: bytes, suffix: bytes)
    requires HasSuffix(s, suffix)
    ensures forall x :: x in suffix ==> x in s
  {
    assert s == s[..|s| - |suffix|] + suffix;
  }

  lemma DataLineTransform(payload: bytes, replacements: seq<BodyTransform>)
    requires LF !in payload
    ensures TransformedLine(DATA + payload, replacements) == DATA + Replaced(payload, replacements)
  {
    assert (DATA + payload)[|DATA|..] == payload;
    assert payload[..|payload|] == payload;
    SuffixElements(payload, Terminator(payload));
  }

  /** A line that is not a data line comes out as it went in, terminator and all. */
  lemma OtherLinesPass(line: bytes, replacements: seq<BodyTransform>)
    requires !(DATA <= line)
    ensures TransformedLine(line, replacements) == line
  {
  }

  /** A data line comes out the same with every terminator, followed by the terminator it had. */
  lemma TerminatorIsKept(text: bytes, replacements: seq<BodyTransform>)
    requires LF !in text && (text == [] || text[|text| - 1] != CR)
    ensures var out := DATA + Replaced(text, replacements);
            && TransformedLine(DATA + text, replacements) == out
            && TransformedLine(DATA + text + [LF], replacements) == out + [LF]
            && TransformedLine(DATA + text + [CR, LF], replacements) == out + [CR, LF]
  {
    DataLineTransform(text, replacements);
    WithTerminator(text, [LF], replacements);
    WithTerminator(text, [CR, LF], replacements);
  }

  lemma WithTerminator(text: bytes, t: bytes, replacements: seq<BodyTransform>)
    requires LF !in text && (text == [] || text[|text| - 1] != CR) && (t == [LF] || t == [CR, LF])
    ensures TransformedLine(DATA + text + t, replacements) == DATA + Replaced(text, replacements) + t
  {
    var line, payload := DATA + text + t, text + t;
    assert line[|DATA|..] == payload;
    assert DATA <= line;
    TerminatorIs(text, t);
    assert payload[..|payload| - |t|] == text;
    assert TransformedLine(line, replacements) == DATA + Replaced(text, replacements) + t;
  }

  lemma TerminatorIs(text: bytes, t: bytes)
    requires (text == [] || text[|text| - 1] != CR) && (t == [LF] || t == [CR, LF])
    ensures Terminator(text + t) == t
  {
    var payload := text + t;
    var n := |payload|;
    assert payload[n - |t|..] == t;
    if t == [LF] && n >= 2 {
      assert payload[n - 2] == text[|text| - 1] && payload[n - 2..][0] == payload[n - 2];
    }
  }

  /** Without replacements every body comes out as it is. */
  lemma NoReplacementsNoChange(body: bytes)
    ensures TransformedBody(body, []) == body
  {
    var lines := Lines(body);
    forall i | 0 <= i < |lines| ensures TransformedLine(lines[i], []) == lines[i] {
      LineWithoutReplacements(lines[i]);
    }
    assert MapLines(lines, []) == lines;
    LinesJoin(body);
  }

  lemma LineWithoutReplacements(line: bytes)
    ensures TransformedLine(line, []) == line
  {
    if DATA <= line {
      var payload := line[|DATA|..];
      var t := Terminator(payload);
      assert payload == payload[..|payload| - |t|] + t;
      assert line == DATA + payload;
      assert DATA + payload[..|payload| - |t|] + t == DATA + payload;
    }
  }

  /** A client that reads with the given buffer sizes, until the end of the file if they suffice. */
  method ReadRun(body: bytes, replacements: seq<BodyTransform>, sizes: seq<nat>) returns (out: bytes, sawEof: bool)
    requires forall i :: 0 <= i < |sizes| ==> sizes[i] > 0
    ensures out <= TransformedBody(body, replacements)
    ensures sawEof ==> out == TransformedBody(body, replacements)
    ensures |sizes| > |TransformedBody(body, replacements)| ==> sawEof
  {
    var r := new Reader(body, replacements);
    out, sawEof := [], false;
    for i := 0 to |sizes|
      invariant r.replacements == replacements
      invariant out + r.Remaining() == TransformedBody(body, replacements)
      invariant |out| >= i && !sawEof
    {
      var p := new byte[sizes[i]];
      ghost var before := r.Remaining();
      var n, status := r.Read(p);
      AppendChunk(out, p[..n], r.Remaining());
      out := out + p[..n];
      if status.Eof? {
        sawEof := true;
        return;
      }
    }
  }

  // ----- Framing of the stream

  function LineFeeds(s: bytes): nat {
    if s == [] then 0 else (if s[0] == LF then 1 else 0) + LineFeeds(s[1..])
  }

  /** The transformed body has its line ends where the body has them, and its data lines as well. */
  ghost predicate KeepsFraming(body: bytes, replacements: seq<BodyTransform>) {
    var before, after := Lines(body), Lines(TransformedBody(body, replacements));
    && |after| == |before|
    && (forall i :: 0 <= i < |before| ==> (DATA <= after[i] <==> DATA <= before[i]))
    && LineFeeds(TransformedBody(body, replacements)) == LineFeeds(body)
  }

  /** A line: no line feed except at its end. */
  predicate IsLine(s: bytes) {
    s != [] && LF !in s[..|s| - 1]
  }

  predicate EndsLine(s: bytes) {
    s != [] && s[|s| - 1] == LF
  }

  /** A payload without a line feed before its last byte is cut into a text without line feeds and a terminator. */
  lemma TerminatorCuts(payload: bytes)
    requires payload != [] ==> LF !in payload[..|payload| - 1]
    ensures var t := Terminator(payload);
            var core := payload[..|payload| - |t|];
            LF !in core && payload == core + t
    ensures EndsLine(payload) <==> Terminator(payload) != []
  {
    var t := Terminator(payload);
    if payload != [] {
      if EndsLine(payload) { SomeSuffix(payload); } else { NoSuffix(payload); }
      Cut(payload, |payload| - 1, |t|);
    }
  }

  lemma Cut(s: bytes, n: nat, k: nat)
    requires s != [] && n == |s| - 1 && LF !in s[..n]
    requires k <= |s| && (k == 0 ==> s[n] != LF)
    ensures LF !in s[..|s| - k]
  {
    forall i | 0 <= i < |s| - k ensures s[i] != LF {
      assert i < n ==> s[i] in s[..n];
    }
  }

  lemma SomeSuffix(payload: bytes)
    requires EndsLine(payload)
    ensures Terminator(payload) != []
  {
    assert payload[|payload| - 1..] == [LF];
  }

  lemma NoSuffix(payload: bytes)
    requires payload != [] && payload[|payload| - 1] != LF
    ensures Terminator(payload) == []
  {
    var n := |payload|;
    assert payload[n - 1..][0] != LF;
    if n > 1 { assert payload[n - 2..][1] != LF; }
  }

  /** The payload of a data line without its terminator has no line feed. */
  lemma PayloadOfLine(line: bytes)
    requires IsLine(line) && DATA <= line
    ensures var payload := line[|DATA|..];
            var t := Terminator(payload);
            var core := payload[..|payload| - |t|];
            LF !in core && payload == core + t && (EndsLine(line) <==> t != [])
  {
    var payload := line[|DATA|..];
    if payload == [] {
      assert line == DATA;
    } else {
      assert payload[..|payload| - 1] == line[..|line| - 1][|DATA|..];
      assert EndsLine(payload) <==> EndsLine(line);
    }
    TerminatorCuts(payload);
  }

  /** The replacements put no line feed into a text that has none. */
  ghost predicate AddsNoLineFeed(replacements: seq<BodyTransform>) {
    forall text :: LF !in text ==> LF !in Replaced(text, replacements)
  }

  lemma TransformedLineIsLine(line: bytes, replacements: seq<BodyTransform>)
    requires IsLine(line) && AddsNoLineFeed(replacements)
    ensures var out := TransformedLine(line, replacements);
            IsLine(out) && (EndsLine(out) <==> EndsLine(line)) && (DATA <= out <==> DATA <= line)
  {
    if DATA <= line {
      PayloadOfLine(line);
      var payload := line[|DATA|..];
      var t := Terminator(payload);
      var core := payload[..|payload| - |t|];
      DataLine(Replaced(core, replacements), t);
    }
  }

  lemma DataLine(core: bytes, t: bytes)
    requires LF !in core && (t == [] || t == [LF] || t == [CR, LF])
    ensures var out := DATA + core + t;
            IsLine(out) && (EndsLine(out) <==> t != []) && DATA <= out
  {
    var out := DATA + core + t;
    if t == [] {
      if core != [] { assert out[|out| - 1] == core[|core| - 1]; }
    } else {
      assert out[|out| - 1] == LF;
    }
  }

  /** Lines come apart again as they were put together. */
  lemma {:induction false} FirstLineOf(line: bytes, rest: bytes)
    requires IsLine(line) && (EndsLine(line) || rest == [])
    ensures FirstLine(line + rest) == line
  {
    var s := line + rest;
    if s[0] != LF && |line| > 1 {
      assert s[1..] == line[1..] + rest;
      FirstLineOf(line[1..], rest);
    } else if |line| == 1 {
      if rest == [] && s[0] != LF { assert s[1..] == []; }
    }
  }

  lemma {:induction false} LinesOfConcat(lines: seq<bytes>)
    requires forall i :: 0 <= i < |lines| ==> IsLine(lines[i])
    requires forall i :: 0 <= i < |lines| - 1 ==> EndsLine(lines[i])
    ensures Lines(Concat(lines)) == lines
  {
    if lines != [] {
      LinesOfConcat(lines[1..]);
      var rest := Concat(lines[1..]);
      assert |lines| == 1 ==> rest == [];
      FirstLineOf(lines[0], rest);
      assert (lines[0] + rest)[|lines[0]|..] == rest;
    }
  }

  /** The lines of a body: put together they are the body, and each is a line. */
  lemma {:induction false} LinesPartition(s: bytes)
    ensures Concat(Lines(s)) == s
    ensures var lines := Lines(s);
            && (forall i :: 0 <= i < |lines| ==> IsLine(lines[i]))
            && (forall i :: 0 <= i < |lines| - 1 ==> EndsLine(lines[i]))
  {
    LinesJoin(s);
    LinesAreLines(s);
  }

  lemma {:induction false} LinesJoin(s: bytes)
    ensures Concat(Lines(s)) == s
  {
    if s != [] {
      LinesOfRest(s);
      var line := FirstLine(s);
      LinesJoin(s[|line|..]);
      ConcatFirst(line, Lines(s[|line|..]));
      Rejoin(s, line);
    }
  }

  lemma LinesOfRest(s: bytes)
    requires s != []
    ensures FirstLine(s) <= s && FirstLine(s) != []
    ensures Lines(s) == [FirstLine(s)] + Lines(s[|FirstLine(s)|..])
  {
  }

  lemma Rejoin(s: bytes, line: bytes)
    requires line <= s
    ensures line + s[|line|..] == s
  {
  }

  lemma ConcatFirst(line: bytes, lines: seq<bytes>)
    ensures Concat([line] + lines) == line + Concat(lines)
  {
    assert ([line] + lines)[1..] == lines;
  }

  lemma {:induction false} LinesAreLines(s: bytes)
    ensures var lines := Lines(s);
            && (forall i :: 0 <= i < |lines| ==> IsLine(lines[i]))
            && (forall i :: 0 <= i < |lines| - 1 ==> EndsLine(lines[i]))
  {
    if s != [] {
      var lines, rest := Lines(s), s[|FirstLine(s)|..];
      LinesAreLines(rest);
      assert lines == [FirstLine(s)] + Lines(rest);
      assert rest == [] ==> |lines| == 1;
    }
  }

  function Terminated(lines: seq<bytes>): nat {
    if lines == [] then 0
    else (if EndsLine(lines[0]) then 1 else 0) + Terminated(lines[1..])
  }

  lemma {:induction false} LineFeedsOfLine(line: bytes, rest: bytes)
    requires IsLine(line)
    ensures LineFeeds(line + rest) == (if EndsLine(line) then 1 else 0) + LineFeeds(rest)
  {
    assert (line + rest)[1..] == line[1..] + rest;
    if |line| > 1 {
      LineFeedsOfLine(line[1..], rest);
    }
  }

  lemma {:induction false} LineFeedsAreTerminated(lines: seq<bytes>)
    requires forall i :: 0 <= i < |lines| ==> IsLine(lines[i])
    ensures LineFeeds(Concat(lines)) == Terminated(lines)
  {
    if lines != [] {
      LineFeedsAreTerminated(lines[1..]);
      LineFeedsOfLine(lines[0], Concat(lines[1..]));
    }
  }

  lemma {:induction false} SameTerminated(a: seq<bytes>, b: seq<bytes>)
    requires |a| == |b|
    requires forall i :: 0 <= i < |a| ==> (EndsLine(a[i]) <==> EndsLine(b[i]))
    ensures Terminated(a) == Terminated(b)
  {
    if a != [] { SameTerminated(a[1..], b[1..]); }
  }

  lemma FramingFollows(body: bytes, replacements: seq<BodyTransform>)
    requires AddsNoLineFeed(replacements)
    ensures KeepsFraming(body, replacements)
  {
    var before := Lines(body);
    var after := MapLines(before, replacements);
    LinesPartition(body);
    forall i | 0 <= i < |before|
      ensures IsLine(after[i]) && (EndsLine(after[i]) <==> EndsLine(before[i]))
              && (DATA <= after[i] <==> DATA <= before[i])
    {
      TransformedLineIsLine(before[i], replacements);
    }
    LinesOfConcat(after);
    LineFeedsAreTerminated(before);
    LineFeedsAreTerminated(after);
    SameTerminated(before, after);
  }

  /** A replacement that on its own keeps every framing: skipped, without a line feed to insert, or never matching a line. */
  predicate Harmless(item: BodyTransform) {
    item.find == [] || LF !in item.replace || LF in item.find
  }

  lemma {:induction false} HarmlessAddNoLineFeed(text: bytes, replacements: seq<BodyTransform>)
    requires LF !in text && forall i :: 0 <= i < |replacements| ==> Harmless(replacements[i])
    ensures LF !in Replaced(text, replacements)
    decreases |replacements|
  {
    if replacements != [] {
      var item := replacements[0];
      if item.find == [] {
        HarmlessAddNoLineFeed(text, replacements[1..]);
      } else {
        if LF in item.find {
          ReplaceAllMisses(text, item.find, item.replace, LF);
        } else {
          ReplaceAllElements(text, item.find, item.replace, LF);
        }
        HarmlessAddNoLineFeed(ReplaceAll(text, item.find, item.replace), replacements[1..]);
      }
    }
  }

  /** With harmless replacements only, as many as one likes, the stream keeps its framing, whatever the body. */
  lemma FramingIsKept(body: bytes, replacements: seq<BodyTransform>)
    requires forall i :: 0 <= i < |replacements| ==> Harmless(replacements[i])
    ensures KeepsFraming(body, replacements)
  {
    forall text | LF !in text ensures LF !in Replaced(text, replacements) {
      HarmlessAddNoLineFeed(text, replacements);
    }
    FramingFollows(body, replacements);
  }

  /** A list of replacements keeps the framing of every body exactly when it puts no line feed into any text. */
  lemma FramingIsKeptExactly(replacements: seq<BodyTransform>)
    ensures (forall body :: KeepsFraming(body, replacements)) <==> AddsNoLineFeed(replacements)
  {
    if AddsNoLineFeed(replacements) {
      forall body ensures KeepsFraming(body, replacements) { FramingFollows(body, replacements); }
    } else {
      var text :| LF !in text && LF in Replaced(text, replacements);
      InsertedLineFeed(text, replacements);
    }
  }

  /** One replacement does exactly when it is harmless. */
  lemma SingleReplacementFraming(item: BodyTransform)
    ensures (forall body :: KeepsFraming(body, [item]))
            <==> (item.find == [] || LF !in item.replace || LF in item.find)
  {
    if Harmless(item) {
      forall body ensures KeepsFraming(body, [item]) { FramingIsKept(body, [item]); }
    } else {
      ReplacedOnce(item.find, item);
      WholeMatch(item.find, item.replace);
      InsertedLineFeed(item.find, [item]);
    }
  }

  const A_TO_B: BodyTransform := BodyTransform([97], [98])
  const A_TO_LF: BodyTransform := BodyTransform([97], [LF])

  /**
    For longer lists no condition on the single replacements decides: of two lists of the same two replacements
    one keeps the framing of every body, since the second replacement never finds its text, and the other does not.
   */
  lemma OrderDecidesFraming()
    ensures forall body :: KeepsFraming(body, [A_TO_B, A_TO_LF])
    ensures exists body :: !KeepsFraming(body, [A_TO_LF, A_TO_B])
  {
    FramingIsKeptExactly([A_TO_B, A_TO_LF]);
    forall text | LF !in text ensures LF !in Replaced(text, [A_TO_B, A_TO_LF]) {
      var out := ReplaceAll(text, [97], [98]);
      SingleByteGone(text, 97, 98);
      ReplaceAllElements(text, [97], [98], LF);
      ReplaceAllMisses(out, [97], [LF], 97);
      ReplacedTwice(text, A_TO_B, A_TO_LF);
    }
    ReplacedTwice([97], A_TO_LF, A_TO_B);
    WholeMatch([97], [LF]);
    ReplaceAllMisses([LF], [97], [98], 97);
    InsertedLineFeed([97], [A_TO_LF, A_TO_B]);
  }

  lemma ReplacedTwice(s: bytes, first: BodyTransform, second: BodyTransform)
    requires first.find != [] && second.find != []
    ensures Replaced(s, [first, second])
            == ReplaceAll(ReplaceAll(s, first.find, first.replace), second.find, second.replace)
  {
    assert [first, second][1..] == [second];
    ReplacedOnce(ReplaceAll(s, first.find, first.replace), second);
  }

  lemma {:induction false} SingleByteGone(s: bytes, x: byte, y: byte)
    requires x != y
    ensures x !in ReplaceAll(s, [x], [y])
  {
    if s != [] { SingleByteGone(s[1..], x, y); }
  }

  lemma {:induction false} LineFeedsPositive(s: bytes)
    ensures LineFeeds(s) > 0 <==> LF in s
  {
    if s != [] { LineFeedsPositive(s[1..]); }
  }

  lemma ReplacedOnce(s: bytes, item: BodyTransform)
    ensures Replaced(s, [item]) == if item.find == [] then s else ReplaceAll(s, item.find, item.replace)
  {
    assert [item][1..] == [];
  }

  lemma WholeMatch(find: bytes, replace: bytes)
    requires find != []
    ensures ReplaceAll(find, find, replace) == replace
  {
    assert find[|find|..] == [];
    assert replace + [] == replace;
  }

  lemma OneLineBody(line: bytes, replacements: seq<BodyTransform>)
    requires line != [] && LF !in line
    ensures TransformedBody(line, replacements) == TransformedLine(line, replacements)
  {
    FirstLineOf(line, []);
    assert line + [] == line;
    assert line[|line|..] == [];
    TransformedBodyStep(line, replacements);
    assert TransformedBody([], replacements) == [];
  }

  /** A text into which a line feed is put breaks the framing of the one-line body that carries it. */
  lemma InsertedLineFeed(text: bytes, replacements: seq<BodyTransform>)
    requires LF !in text && LF in Replaced(text, replacements)
    ensures !KeepsFraming(DATA + text, replacements)
  {
    var body := DATA + text;
    assert LF !in body;
    OneLineBody(body, replacements);
    DataLineTransform(text, replacements);
    var out := TransformedBody(body, replacements);
    assert LF in out by { assert out[|DATA|..] == Replaced(text, replacements); }
    LineFeedsPositive(body);
    LineFeedsPositive(out);
  }

  // ----- Carriage returns, which the standard counts as line ends and the transformer does not

  /** The line ends of section 9.2: CR LF, LF, or CR. */
  function LineEnds(s: bytes): nat {
    if s == [] then 0
    else LineEnds(s[1..]) + if s[0] == LF || (s[0] == CR && !([LF] <= s[1..])) then 1 else 0
  }

  lemma {:induction false} LineEndsPositive(s: bytes)
    ensures LineEnds(s) > 0 <==> LF in s || CR in s
  {
    if s != [] { LineEndsPositive(s[1..]); }
  }

  lemma WholeLineReplaced(item: BodyTransform)
    requires item.find != [] && LF !in item.find
    ensures TransformedBody(DATA + item.find, [item]) == DATA + item.replace
  {
    assert LF !in DATA + item.find;
    OneLineBody(DATA + item.find, [item]);
    DataLineTransform(item.find, [item]);
    ReplacedOnce(item.find, item);
    WholeMatch(item.find, item.replace);
  }

  /**
    A carriage return in a replacement text breaks a line in two as a line feed does, for a client that ends lines
    as the standard says.
   */
  lemma CarriageReturnBreaksLine(item: BodyTransform)
    requires item.find != [] && LF !in item.find && CR !in item.find && CR in item.replace
    ensures LineEnds(DATA + item.find) == 0
    ensures LineEnds(TransformedBody(DATA + item.find, [item])) > 0
  {
    WholeLineReplaced(item);
    LineEndsPositive(DATA + item.find);
    LineEndsPositive(DATA + item.replace);
    InConcat(DATA, item.find, LF);
    InConcat(DATA, item.find, CR);
    InConcat(DATA, item.replace, CR);
  }

  lemma InConcat(a: bytes, b: bytes, x: byte)
    ensures x in a + b <==> x in a || x in b
  {
  }

  /** A data line behind a lone carriage return is not seen: nothing is replaced in it. */
  lemma LoneCarriageReturnHidesData(text: bytes, replacements: seq<BodyTransform>)
    requires LF !in text
    ensures var body := [58, CR] + DATA + text;
            TransformedBody(body, replacements) == body
  {
    var body := [58, CR] + DATA + text;
    assert LF !in body && body[0] != DATA[0];
    OneLineBody(body, replacements);
  }
}
