/**
 * The bytes of `queue-history.jsonl` (src/queue_history.rs): appends that may be cut at any byte, and a reader that
 * skips what does not parse.
 */
module TornLog {
  import opened Wrappers
  import opened QueueHistory

  newtype Byte = x: int | 0 <= x < 256

  const NEWLINE: Byte := 10

  type Line = seq<Byte>

  /** A record's JSON text, and the text's record if it has one. */
  datatype Codec<!R> = Codec(encode: R -> Line, decode: Line -> Option<R>)

  /** All that is assumed of the JSON library. */
  ghost predicate Sound<R(!new)>(codec: Codec<R>) {
    && (forall r :: codec.decode(codec.encode(r)) == Some(r))
    && (forall r :: NEWLINE !in codec.encode(r) && !Blank(codec.encode(r)))
    && (forall r, n: nat :: n < |codec.encode(r)| ==> codec.decode(codec.encode(r)[..n]).None?)
  }

  predicate IsAsciiWhitespace(b: Byte) {
    b == 32 || b == 9 || b == 10 || b == 12 || b == 13
  }

  predicate Blank(line: Line) {
    forall b :: b in line ==> IsAsciiWhitespace(b)
  }

  // ---------------------------------------------------------------------
  // A sound codec
  // ---------------------------------------------------------------------

  predicate IsDashed(line: Line) {
    line != [] && line[|line| - 1] == 46 && forall i :: 0 <= i < |line| - 1 ==> line[i] == 45
  }

  /** A dash for every unit of the record's number, then a full stop. */
  function Dashes<R>(number: R -> nat, record: nat -> Option<R>): Codec<R> {
    Codec((r: R) => seq(number(r), i => 45 as Byte) + [46],
          (line: Line) => if IsDashed(line) then record(|line| - 1) else None)
  }

  /** The assumption can be met: every numbering of the records gives a sound codec. */
  lemma DashesAreSound<R(!new)>(number: R -> nat, record: nat -> Option<R>)
    requires forall r :: record(number(r)) == Some(r)
    ensures Sound(Dashes(number, record))
  {
    var codec := Dashes(number, record);
    forall r
      ensures codec.decode(codec.encode(r)) == Some(r)
      ensures NEWLINE !in codec.encode(r) && !Blank(codec.encode(r))
    {
      var line := codec.encode(r);
      assert line[number(r)] == 46 && line[number(r)] in line;
    }
    forall r, n: nat | n < |codec.encode(r)|
      ensures codec.decode(codec.encode(r)[..n]).None?
    {
      var line := codec.encode(r)[..n];
      assert n > 0 ==> line[n - 1] == 45;
    }
  }

  // ---------------------------------------------------------------------
  // Writing
  // ---------------------------------------------------------------------

  predicate EndsWithoutNewline(file: seq<Byte>) {
    file != [] && file[|file| - 1] != NEWLINE
  }

  function Encoded<R>(codec: Codec<R>, records: seq<R>): seq<Byte> {
    if records == [] then [] else codec.encode(records[0]) + [NEWLINE] + Encoded(codec, records[1..])
  }

  /** The bytes an append writes after `file`. */
  function Payload<R>(codec: Codec<R>, file: seq<Byte>, records: seq<R>): seq<Byte> {
    if records == [] then []
    else (if EndsWithoutNewline(file) then [NEWLINE] else []) + Encoded(codec, records)
  }

  // ---------------------------------------------------------------------
  // Reading
  // ---------------------------------------------------------------------

  function FirstNewline(file: seq<Byte>): (n: nat)
    ensures n <= |file| && NEWLINE !in file[..n]
    ensures n < |file| ==> file[n] == NEWLINE
  {
    if file == [] || file[0] == NEWLINE then 0
    else
      var n := FirstNewline(file[1..]);
      assert file[..n + 1] == [file[0]] + file[1..][..n];
      n + 1
  }

  /** The record on a line, if the reader sees one. */
  function OnLine<R>(codec: Codec<R>, line: Line): seq<R> {
    if Blank(line) then []
    else
      var r := codec.decode(line);
      if r.Some? then [r.value] else []
  }

  /** Every record the reader sees, in order. */
  function Read<R>(codec: Codec<R>, file: seq<Byte>): seq<R> {
    if file == [] then []
    else
      var n := FirstNewline(file);
      if n == |file| then OnLine(codec, file)
      else OnLine(codec, file[..n]) + Read(codec, file[n + 1..])
  }

  // ---------------------------------------------------------------------
  // Lines
  // ---------------------------------------------------------------------

  lemma {:induction false} FirstNewlineOf(line: Line, rest: seq<Byte>)
    requires NEWLINE !in line
    ensures FirstNewline(line + [NEWLINE] + rest) == |line|
    ensures FirstNewline(line) == |line|
  {
    if line != [] {
      FirstNewlineOf(line[1..], rest);
      assert (line + [NEWLINE] + rest)[1..] == line[1..] + [NEWLINE] + rest;
    }
  }

  lemma ReadLine<R>(codec: Codec<R>, line: Line, rest: seq<Byte>)
    requires NEWLINE !in line
    ensures Read(codec, line + [NEWLINE] + rest) == OnLine(codec, line) + Read(codec, rest)
    ensures Read(codec, line) == OnLine(codec, line)
  {
    FirstNewlineOf(line, rest);
    var file := line + [NEWLINE] + rest;
    assert file[..|line|] == line && file[|line| + 1..] == rest;
  }

  lemma ReadNothing<R>(codec: Codec<R>)
    ensures Read(codec, []) == []
  {
  }

  /** The first line of a file that has one. */
  lemma FirstLine(file: seq<Byte>) returns (line: Line, rest: seq<Byte>)
    requires NEWLINE in file
    ensures file == line + [NEWLINE] + rest && NEWLINE !in line
  {
    var n := FirstNewline(file);
    assert file[..|file|] == file;
    line, rest := file[..n], file[n + 1..];
  }

  /** A file that ends its last line reads line by line, whatever follows. */
  lemma {:induction false} ReadConcat<R>(codec: Codec<R>, file: seq<Byte>, more: seq<Byte>)
    requires !EndsWithoutNewline(file)
    ensures Read(codec, file + more) == Read(codec, file) + Read(codec, more)
    decreases |file|
  {
    hide Read, FirstNewline, OnLine;
    if file == [] {
      assert file + more == more;
      ReadNothing(codec);
    } else {
      assert file[|file| - 1] in file;
      var line, rest := FirstLine(file);
      assert file + more == line + [NEWLINE] + (rest + more);
      ReadLine(codec, line, rest);
      ReadLine(codec, line, rest + more);
      assert rest != [] ==> rest[|rest| - 1] == file[|file| - 1];
      ReadConcat(codec, rest, more);
    }
  }

  /** Ending the last line changes nothing the reader sees. */
  lemma {:induction false} ReadEnded<R>(codec: Codec<R>, file: seq<Byte>)
    ensures Read(codec, file + [NEWLINE]) == Read(codec, file)
    decreases |file|
  {
    hide Read, FirstNewline, OnLine;
    if NEWLINE in file {
      var line, rest := FirstLine(file);
      assert file + [NEWLINE] == line + [NEWLINE] + (rest + [NEWLINE]);
      ReadLine(codec, line, rest);
      ReadLine(codec, line, rest + [NEWLINE]);
      ReadEnded(codec, rest);
    } else {
      ReadLine(codec, file, []);
      ReadNothing(codec);
      assert file + [NEWLINE] + [] == file + [NEWLINE];
    }
  }

  // ---------------------------------------------------------------------
  // Cut appends
  // ---------------------------------------------------------------------

  /** How many of `records` a cut of their text after `n` bytes leaves readable. */
  function Readable<R>(codec: Codec<R>, records: seq<R>, n: nat): (k: nat)
    ensures k <= |records|
  {
    if records == [] || n < |codec.encode(records[0])| then 0
    else
      var size := |codec.encode(records[0])|;
      1 + Readable(codec, records[1..], if n == size then 0 else n - size - 1)
  }

  /** What the reader makes of a line that holds a record, or a part of one. */
  lemma OnRecord<R(!new)>(codec: Codec<R>, r: R, n: nat)
    requires Sound(codec) && n <= |codec.encode(r)|
    ensures OnLine(codec, codec.encode(r)[..n]) == if n == |codec.encode(r)| then [r] else []
    ensures NEWLINE !in codec.encode(r)[..n]
  {
    var line := codec.encode(r);
    assert line[..|line|] == line;
    assert forall b :: b in line[..n] ==> b in line;
    assert codec.decode(line) == Some(r);
  }

  lemma {:induction false} ReadEncoded<R(!new)>(codec: Codec<R>, records: seq<R>, n: nat)
    requires Sound(codec) && n <= |Encoded(codec, records)|
    ensures Read(codec, Encoded(codec, records)[..n]) == records[..Readable(codec, records, n)]
    ensures n == |Encoded(codec, records)| ==> Readable(codec, records, n) == |records|
    decreases |records|
  {
    hide Read, Sound, OnLine;
    ReadNothing(codec);
    if records != [] {
      var line := codec.encode(records[0]);
      var tail := Encoded(codec, records[1..]);
      var text := Encoded(codec, records)[..n];
      if n <= |line| {
        assert text == line[..n];
        OnRecord(codec, records[0], n);
        ReadLine(codec, text, []);
        EmptyReadable(codec, records[1..]);
        assert n == |line| ==> [records[0]] == records[..1];
      } else {
        var m: nat := n - |line| - 1;
        assert text == line + [NEWLINE] + tail[..m];
        assert line[..|line|] == line;
        OnRecord(codec, records[0], |line|);
        ReadLine(codec, line, tail[..m]);
        ReadEncoded(codec, records[1..], m);
        var k := Readable(codec, records[1..], m);
        assert records[..1 + k] == [records[0]] + records[1..][..k];
      }
    }
  }

  lemma EmptyReadable<R(!new)>(codec: Codec<R>, records: seq<R>)
    requires Sound(codec)
    ensures Readable(codec, records, 0) == 0
  {
    if records != [] {
      var line := codec.encode(records[0]);
      assert !Blank(line);
    }
  }

  /** How many records an append cut after `n` bytes leaves readable. */
  function Survivors<R>(codec: Codec<R>, file: seq<Byte>, records: seq<R>, n: nat): nat {
    if !EndsWithoutNewline(file) then Readable(codec, records, n)
    else if n == 0 then 0
    else Readable(codec, records, n - 1)
  }

  /**
   * An append, cut after any number of bytes: the reader still sees every earlier record, then a prefix of the
   * appended ones, and all of them if nothing was cut off.
   */
  lemma CutAppend<R(!new)>(codec: Codec<R>, file: seq<Byte>, records: seq<R>, n: nat)
    requires Sound(codec) && n <= |Payload(codec, file, records)|
    ensures Survivors(codec, file, records, n) <= |records|
    ensures Read(codec, file + Payload(codec, file, records)[..n])
            == Read(codec, file) + records[..Survivors(codec, file, records, n)]
    ensures n == |Payload(codec, file, records)| ==> Survivors(codec, file, records, n) == |records|
  {
    hide Read, Encoded, Readable, Sound;
    var text := Encoded(codec, records);
    if records == [] {
      NoneReadable(codec, n);
      assert file + Payload(codec, file, records)[..n] == file;
    } else if !EndsWithoutNewline(file) {
      assert Payload(codec, file, records) == text;
      ReadConcat(codec, file, text[..n]);
      ReadEncoded(codec, records, n);
    } else if n == 0 {
      assert file + Payload(codec, file, records)[..0] == file;
    } else {
      CutPayload(file, text, n);
      ReadConcat(codec, file + [NEWLINE], text[..n - 1]);
      ReadEnded(codec, file);
      ReadEncoded(codec, records, n - 1);
    }
  }

  lemma CutPayload(file: seq<Byte>, text: seq<Byte>, n: nat)
    requires 0 < n <= |text| + 1
    ensures file + ([NEWLINE] + text)[..n] == file + [NEWLINE] + text[..n - 1]
  {
    assert ([NEWLINE] + text)[..n] == [NEWLINE] + text[..n - 1];
  }

  lemma NoneReadable<R>(codec: Codec<R>, n: nat)
    ensures Readable(codec, [], n) == 0
  {
  }

  // ---------------------------------------------------------------------
  // Any sequence of appends
  // ---------------------------------------------------------------------

  /** An append of `records`, cut after `cut` bytes if it was interrupted that early. */
  datatype Append<R> = Append(records: seq<R>, cut: Option<nat>)

  function Written<R>(codec: Codec<R>, file: seq<Byte>, a: Append<R>): (n: nat)
    ensures n <= |Payload(codec, file, a.records)|
  {
    var whole := |Payload(codec, file, a.records)|;
    if a.cut.Some? && a.cut.value < whole then a.cut.value else whole
  }

  function FileAfter<R>(codec: Codec<R>, file: seq<Byte>, appends: seq<Append<R>>): seq<Byte>
    decreases |appends|
  {
    if appends == [] then file
    else
      var a := appends[0];
      FileAfter(codec, file + Payload(codec, file, a.records)[..Written(codec, file, a)], appends[1..])
  }

  /** `seen` is a prefix of each append's records, one after the other, and all of them where it was not cut. */
  ghost predicate InOrder<R(!new)>(appends: seq<Append<R>>, seen: seq<R>) {
    if appends == [] then seen == []
    else
      exists k: nat ::
        && k <= |appends[0].records| && k <= |seen|
        && seen[..k] == appends[0].records[..k]
        && (appends[0].cut.None? ==> k == |appends[0].records|)
        && InOrder(appends[1..], seen[k..])
  }

  /** Torn-log recovery: the reader sees the appended records in order, and loses no complete append. */
  lemma {:induction false} LogRecovers<R(!new)>(codec: Codec<R>, file: seq<Byte>, appends: seq<Append<R>>)
    requires Sound(codec)
    ensures Read(codec, file) <= Read(codec, FileAfter(codec, file, appends))
    ensures InOrder(appends, Read(codec, FileAfter(codec, file, appends))[|Read(codec, file)|..])
    decreases |appends|
  {
    hide Read, Sound, Payload, Survivors;
    if appends != [] {
      var a := appends[0];
      var n := Written(codec, file, a);
      var next := file + Payload(codec, file, a.records)[..n];
      CutAppend(codec, file, a.records, n);
      LogRecovers(codec, next, appends[1..]);
      var k := Survivors(codec, file, a.records, n);
      var before, all := Read(codec, file), Read(codec, FileAfter(codec, file, appends));
      var seen := all[|before|..];
      assert Read(codec, next) == before + a.records[..k];
      assert all[..|before| + k] == before + a.records[..k];
      assert seen[..k] == a.records[..k];
      assert seen[k..] == all[|Read(codec, next)|..];
    }
  }

  // ---------------------------------------------------------------------
  // The file
  // ---------------------------------------------------------------------

  class HistoryFile<R(!new)> {
    const codec: Codec<R>
    var bytes: seq<Byte>

    constructor (codec: Codec<R>)
      ensures this.codec == codec && bytes == []
    {
      this.codec := codec;
      bytes := [];
    }

    /** `append_history`: build the payload, start on a fresh line, write. */
    method AppendHistory(records: seq<R>)
      modifies this
      ensures bytes == old(bytes) + Payload(codec, old(bytes), records)
    {
      if records == [] {
        return;
      }
      var payload: seq<Byte> := [];
      for i := 0 to |records|
        invariant payload + Encoded(codec, records[i..]) == Encoded(codec, records)
      {
        assert records[i..][0] == records[i] && records[i..][1..] == records[i + 1..];
        assert Encoded(codec, records[i..]) == codec.encode(records[i]) + [NEWLINE] + Encoded(codec, records[i + 1..]);
        payload := payload + codec.encode(records[i]) + [NEWLINE];
      }
      assert records[|records|..] == [];
      if EndsWithoutNewline(bytes) {
        bytes := bytes + [NEWLINE];
      }
      bytes := bytes + payload;
    }

    /** `find_last`: one pass over the lines, keeping the last match. */
    method FindLast(matches: R -> bool) returns (found: Option<R>)
      ensures found == LastMatch(Read(codec, bytes), matches)
    {
      hide Read, LastMatch, OnLine, FirstNewline, Blank;
      NoMatch(matches);
      found := None;
      var at := 0;
      ghost var seen: seq<R> := [];
      assert bytes[0..] == bytes;
      while at < |bytes|
        invariant at <= |bytes|
        invariant Read(codec, bytes) == seen + Read(codec, bytes[at..])
        invariant found == LastMatch(seen, matches)
      {
        var n := FirstNewline(bytes[at..]);
        var line := bytes[at..][..n];
        ReadStep(codec, bytes, at);
        LineMatches(codec, line, seen, matches);
        seen := seen + OnLine(codec, line);
        if !Blank(line) {
          var r := codec.decode(line);
          if r.Some? && matches(r.value) {
            found := r;
          }
        }
        at := if at + n == |bytes| then |bytes| else at + n + 1;
      }
      ReadNothing(codec);
      assert bytes[at..] == [];
      assert Read(codec, bytes) == seen;
    }
  }

  /** Reading goes on with the line at `at`. */
  lemma ReadStep<R>(codec: Codec<R>, file: seq<Byte>, at: nat)
    requires at < |file|
    ensures var n := FirstNewline(file[at..]);
            && at + n <= |file|
            && Read(codec, file[at..]) == OnLine(codec, file[at..][..n])
                                          + Read(codec, file[if at + n == |file| then |file| else at + n + 1..])
  {
    hide OnLine, Read, FirstNewline;
    var rest := file[at..];
    var n := FirstNewline(rest);
    ReadFirst(codec, rest);
    if n == |rest| {
      assert file[|file|..] == [];
    } else {
      assert rest[n + 1..] == file[at + n + 1..];
    }
  }

  lemma ReadFirst<R>(codec: Codec<R>, file: seq<Byte>)
    requires file != []
    ensures var n := FirstNewline(file);
            Read(codec, file) == OnLine(codec, file[..n]) + Read(codec, if n == |file| then [] else file[n + 1..])
  {
    hide OnLine, FirstNewline;
    assert file[..|file|] == file;
    ReadNothing(codec);
  }

  lemma LineMatches<R>(codec: Codec<R>, line: Line, seen: seq<R>, matches: R -> bool)
    ensures LastMatch(seen + OnLine(codec, line), matches)
            == if !Blank(line) && codec.decode(line).Some? && matches(codec.decode(line).value) then codec.decode(line)
               else LastMatch(seen, matches)
  {
    hide LastMatch;
    if !Blank(line) && codec.decode(line).Some? {
      LastMatchAppended(seen, codec.decode(line).value, matches);
    } else {
      assert seen + [] == seen;
    }
  }

  lemma NoMatch<R>(matches: R -> bool)
    ensures LastMatch([], matches) == None
  {
  }
}
