/**
 * Reading a session file: the whole-file scan taken before Pi may repair it, and the
 * reader that finds the newest entry from the tail. A file is its bytes, lines end at a
 * newline byte, and what a line parses to is any function of the line.
 */
module SessionFile {
  import opened Sequences
  import opened Wrappers

  type Byte = b: int | 0 <= b < 256
  type Id = string

  const NEWLINE: Byte := 10
  const FINGERPRINT_TAIL_BYTES: nat := 64 * 1024

  /** What one line parses to: nothing, or a value with perhaps an id, perhaps of a session header. */
  datatype Parsed = Unparseable | Value(id: Option<Id>, sessionHeader: bool)

  type Parser = seq<Byte> -> Parsed

  /** An empty line names nothing and is not parsed at all. */
  function EntryId(parse: Parser, line: seq<Byte>): Option<Id> {
    if line == [] then None
    else
      match parse(line)
      case Unparseable => None
      case Value(id, _) => id
  }

  // ---- Lines ----------------------------------------------------------------

  /** There is always one more line than there are newlines. */
  function Lines(bytes: seq<Byte>): (lines: seq<seq<Byte>>)
    ensures |lines| > 0
  {
    Split(bytes, {NEWLINE})
  }

  /** The last line that names an entry, read from the end. */
  function LastId(parse: Parser, lines: seq<seq<Byte>>): Option<Id> {
    if lines == [] then None
    else if EntryId(parse, lines[|lines| - 1]).Some? then EntryId(parse, lines[|lines| - 1])
    else LastId(parse, lines[..|lines| - 1])
  }

  /** The last line of those that parse to a value with an id decides, and without one there is none. */
  lemma {:induction false} LastIdIs(parse: Parser, lines: seq<seq<Byte>>, id: Id)
    ensures LastId(parse, lines) == Some(id) <==>
            exists i :: 0 <= i < |lines| && Names(parse, lines[i], id)
                        && forall j :: i < j < |lines| ==> NamesNone(parse, lines[j])
    ensures LastId(parse, lines).None? <==> forall i :: 0 <= i < |lines| ==> NamesNone(parse, lines[i])
  {
    if lines != [] {
      var n := |lines| - 1;
      LastIdIs(parse, lines[..n], id);
      if LastId(parse, lines[..n]) == Some(id) && NamesNone(parse, lines[n]) {
        var i :| 0 <= i < n && Names(parse, lines[..n][i], id)
          && forall j :: i < j < n ==> NamesNone(parse, lines[..n][j]);
        assert Names(parse, lines[i], id) && forall j :: i < j < |lines| ==> NamesNone(parse, lines[j]);
      }
    }
  }

  predicate Names(parse: Parser, line: seq<Byte>, id: Id) {
    line != [] && parse(line).Value? && parse(line).id == Some(id)
  }

  predicate NamesNone(parse: Parser, line: seq<Byte>) {
    line == [] || parse(line).Unparseable? || parse(line).id.None?
  }

  /** Lines with a newline between each two. */
  function Unlines(lines: seq<seq<Byte>>): seq<Byte>
    requires lines != []
  {
    if |lines| == 1 then lines[0] else lines[0] + [NEWLINE] + Unlines(lines[1..])
  }

  /** A file's lines hold no newline and with newlines between them are the file. */
  lemma {:induction false} LinesAre(bytes: seq<Byte>)
    ensures Unlines(Lines(bytes)) == bytes
    ensures forall line :: line in Lines(bytes) ==> NEWLINE !in line
  {
    if bytes != [] {
      LinesAre(bytes[1..]);
      var rest := Lines(bytes[1..]);
      if bytes[0] == NEWLINE {
        assert Lines(bytes)[1..] == rest;
      } else {
        assert Lines(bytes) == Prepend(bytes[0], rest);
        assert Prepend(bytes[0], rest)[1..] == rest[1..];
      }
    }
  }

  /** Puts a cut file's lines together: only the line the cut went through was in two pieces. */
  function Join(left: seq<seq<Byte>>, right: seq<seq<Byte>>): seq<seq<Byte>>
    requires left != [] && right != []
  {
    left[..|left| - 1] + [left[|left| - 1] + right[0]] + right[1..]
  }

  function Prepend(b: Byte, lines: seq<seq<Byte>>): seq<seq<Byte>>
    requires lines != []
  {
    [[b] + lines[0]] + lines[1..]
  }

  lemma JoinAfterNewline(left: seq<seq<Byte>>, right: seq<seq<Byte>>)
    requires left != [] && right != []
    ensures Join([[]] + left, right) == [[]] + Join(left, right)
  {
    var longer := [[]] + left;
    assert longer[..|longer| - 1] == [[]] + left[..|left| - 1];
  }

  lemma JoinPrepended(b: Byte, left: seq<seq<Byte>>, right: seq<seq<Byte>>)
    requires left != [] && right != []
    ensures Join(Prepend(b, left), right) == Prepend(b, Join(left, right))
  {
    var longer := Prepend(b, left);
    if |left| == 1 {
      assert longer[..0] == left[..0] == [];
      assert ([b] + left[0]) + right[0] == [b] + (left[0] + right[0]);
    } else {
      assert longer[..|longer| - 1] == [[b] + left[0]] + left[1..|left| - 1];
      assert Join(left, right)[1..] == left[1..|left| - 1] + [left[|left| - 1] + right[0]] + right[1..];
    }
  }

  lemma JoinEmpty(right: seq<seq<Byte>>)
    requires right != []
    ensures Join([[]], right) == right
  {
    var none: seq<Byte> := [];
    assert none + right[0] == right[0];
    assert [none][..0] == [];
    assert [right[0]] + right[1..] == right;
  }

  /** Cutting a file in two cuts at most one line in two. */
  lemma {:induction false} SplitJoins(a: seq<Byte>, b: seq<Byte>)
    ensures Lines(a + b) == Join(Lines(a), Lines(b))
  {
    if a == [] {
      assert a + b == b;
      JoinEmpty(Lines(b));
    } else {
      assert (a + b)[1..] == a[1..] + b;
      SplitJoins(a[1..], b);
      if a[0] == NEWLINE {
        JoinAfterNewline(Lines(a[1..]), Lines(b));
      } else {
        JoinPrepended(a[0], Lines(a[1..]), Lines(b));
      }
    }
  }

  lemma {:induction false} LastIdSplits(parse: Parser, a: seq<seq<Byte>>, b: seq<seq<Byte>>)
    ensures LastId(parse, a + b) == if LastId(parse, b).Some? then LastId(parse, b) else LastId(parse, a)
  {
    if b == [] {
      assert a + b == a;
    } else {
      assert (a + b)[..|a + b| - 1] == a + b[..|b| - 1];
      LastIdSplits(parse, a, b[..|b| - 1]);
    }
  }

  /** What a window's complete lines say about the newest entry, the whole file says. */
  lemma WindowDecides(parse: Parser, file: seq<Byte>, start: nat)
    requires start <= |file|
    ensures var complete := Lines(file[start..])[1..];
            LastId(parse, complete).Some? ==> LastId(parse, Lines(file)) == LastId(parse, complete)
  {
    var a, b := file[..start], file[start..];
    assert file == a + b;
    SplitJoins(a, b);
    var left, right := Lines(a), Lines(b);
    LastIdSplits(parse, left[..|left| - 1] + [left[|left| - 1] + right[0]], right[1..]);
  }

  // ---- The tail reader ------------------------------------------------------

  /** One read system call: it may return less than was asked, and nothing only at the end of the file. */
  method ReadSync(file: seq<Byte>, buffer: array<Byte>, offset: nat, length: nat, position: nat) returns (read: nat)
    requires offset + length <= buffer.Length
    modifies buffer
    ensures read <= length && position + read <= |file| + (if position > |file| then position else 0)
    ensures read == 0 <==> length == 0 || position >= |file|
    ensures forall i :: 0 <= i < buffer.Length ==>
              buffer[i] == if offset <= i < offset + read then file[position + i - offset] else old(buffer[i])
  {
    if length == 0 || position >= |file| {
      return 0;
    }
    var most: nat := Min(length, |file| - position);
    read :| 1 <= read <= most;
    forall i | offset <= i < offset + read {
      buffer[i] := file[position + i - offset];
    }
  }

  /** Fills a window of the file, however few bytes each read brings. */
  method LoadWindow(file: seq<Byte>, start: nat, windowBytes: nat) returns (window: seq<Byte>)
    requires start + windowBytes == |file|
    ensures window == file[start..]
  {
    var bytes := new Byte[windowBytes](_ => 0);
    var loaded := 0;
    while loaded < windowBytes
      invariant loaded <= windowBytes
      invariant bytes[..loaded] == file[start..start + loaded]
      decreases windowBytes - loaded
    {
      assert forall i :: 0 <= i < loaded ==> bytes[..loaded][i] == bytes[i] == file[start + i];
      var read := ReadSync(file, bytes, loaded, windowBytes - loaded, start + loaded);
      if read == 0 {
        break;
      }
      loaded := loaded + read;
      assert forall i :: 0 <= i < loaded ==> bytes[i] == file[start + i];
    }
    window := bytes[..loaded];
  }

  /**
   * Reads from the end in a window that doubles, discarding the window's first piece
   * unless it begins the file. It returns what a scan of the whole file would.
   */
  method LastEntryIdFromTail(parse: Parser, file: seq<Byte>) returns (id: Option<Id>)
    ensures id == LastId(parse, Lines(file))
  {
    var sizeBytes := |file|;
    var windowBytes := Min(sizeBytes, FINGERPRINT_TAIL_BYTES);
    if sizeBytes == 0 {
      NothingNamed(parse, file);
    }
    while windowBytes > 0
      invariant windowBytes <= sizeBytes && (windowBytes == 0 ==> sizeBytes == 0)
      decreases sizeBytes - windowBytes, windowBytes
    {
      var start := sizeBytes - windowBytes;
      var window := LoadWindow(file, start, windowBytes);
      var lines := Lines(window);
      var firstCompleteLine := if start == 0 then 0 else 1;
      id := LastFrom(parse, lines, firstCompleteLine);
      if id.Some? {
        WindowDecides(parse, file, start);
        return;
      }
      if start == 0 {
        return None;
      }
      windowBytes := Min(sizeBytes, windowBytes * 2);
    }
    return None;
  }

  method LastFrom(parse: Parser, lines: seq<seq<Byte>>, first: nat) returns (id: Option<Id>)
    requires first <= |lines|
    ensures id == LastId(parse, lines[first..])
  {
    var index := |lines|;
    assert lines[first..index] == lines[first..];
    while index > first
      invariant first <= index <= |lines|
      invariant LastId(parse, lines[first..]) == LastId(parse, lines[first..index])
    {
      index := index - 1;
      assert lines[first..index + 1][..index - first] == lines[first..index];
      if EntryId(parse, lines[index]).Some? {
        return EntryId(parse, lines[index]);
      }
    }
    return None;
  }

  // ---- The whole-file scan --------------------------------------------------

  datatype Integrity = Integrity(
    present: bool,
    sizeBytes: nat,
    validLines: nat,
    freshTear: bool,
    fragmentBytes: nat,
    scarLines: nat,
    headerUnreadable: bool,
    headerSessionId: Option<Id>,
    lastEntryId: Option<Id>)

  const ABSENT := Integrity(false, 0, 0, false, 0, 0, false, None, None)

  function CountValid(parse: Parser, lines: seq<seq<Byte>>): nat {
    if lines == [] then 0
    else CountValid(parse, lines[..|lines| - 1]) + if parse(lines[|lines| - 1]).Value? then 1 else 0
  }

  /** Reads a file that may be missing; the parser decides every line, and order decides the newest entry. */
  method InspectSessionFile(parse: Parser, file: Option<seq<Byte>>) returns (r: Integrity)
    ensures file.None? ==> r == ABSENT
    ensures file.Some? ==>
              var lines := NonEmpty(Lines(file.value));
              && r.present && r.sizeBytes == |file.value|
              && r.validLines == CountValid(parse, lines)
              && r.freshTear == (file.value != [] && file.value[|file.value| - 1] != NEWLINE)
              && (r.freshTear ==> lines != [])
              && r.fragmentBytes == (if r.freshTear then |lines[|lines| - 1]| else 0)
              && r.scarLines == |lines| - r.validLines
                                - (if r.freshTear && parse(lines[|lines| - 1]).Unparseable? then 1 else 0)
              && (file.value != [] ==> r.headerUnreadable == (lines == [] || parse(lines[0]).Unparseable?))
              && (forall id :: r.headerSessionId == Some(id) <==>
                    lines != [] && parse(lines[0]) == Value(Some(id), true))
              && r.lastEntryId == LastId(parse, Lines(file.value))
  {
    if file.None? {
      return ABSENT;
    }
    var content := file.value;
    NonEmptyLastId(parse, Lines(content));
    if |content| == 0 {
      NothingNamed(parse, content);
      return ABSENT.(present := true);
    }
    var freshTear := content[|content| - 1] != NEWLINE;
    LastPiece(content);
    var lines := NonEmpty(Lines(content));
    if freshTear {
      TearIsLast(content);
    }
    var validLines, scarLines, lastEntryId := ScanLines(parse, lines, freshTear);
    var header := if lines == [] then Unparseable else parse(lines[0]);
    r := Integrity(
      true,
      |content|,
      validLines,
      freshTear,
      if freshTear then |lines[|lines| - 1]| else 0,
      scarLines,
      header.Unparseable?,
      if header.Value? && header.sessionHeader then header.id else None,
      lastEntryId);
  }

  function ValidAt(parse: Parser, lines: seq<seq<Byte>>): (indices: set<nat>)
    ensures forall i :: i in indices <==> 0 <= i < |lines| && parse(lines[i]).Value?
  {
    set i: nat | i < |lines| && parse(lines[i]).Value?
  }

  /** The count of lines that parse, and the lines that are scanned: all but the empty ones. */
  lemma {:induction false} CountValidIs(parse: Parser, lines: seq<seq<Byte>>)
    ensures CountValid(parse, lines) == |ValidAt(parse, lines)|
  {
    if lines != [] {
      var n := |lines| - 1;
      CountValidIs(parse, lines[..n]);
      hide ValidAt;
      OneMore(ValidAt(parse, lines[..n]), ValidAt(parse, lines), n, parse(lines[n]).Value?);
    }
  }

  lemma OneMore(before: set<nat>, after: set<nat>, n: nat, more: bool)
    requires n !in before
    requires forall i :: i in after <==> i in before || (more && i == n)
    ensures |after| == |before| + if more then 1 else 0
  {
    assert after == before + if more then {n} else {};
  }

  lemma {:induction false} NonEmptyIs(lines: seq<seq<Byte>>, line: seq<Byte>)
    ensures multiset(NonEmpty(lines))[line] == if line == [] then 0 else multiset(lines)[line]
  {
    if lines != [] {
      NonEmptyIs(lines[1..], line);
      assert lines == [lines[0]] + lines[1..];
    }
  }

  method ScanLines(parse: Parser, lines: seq<seq<Byte>>, freshTear: bool)
    returns (validLines: nat, scarLines: nat, lastEntryId: Option<Id>)
    requires freshTear ==> lines != []
    requires forall line :: line in lines ==> line != []
    ensures validLines == CountValid(parse, lines)
    ensures scarLines == |lines| - validLines - (if freshTear && parse(lines[|lines| - 1]).Unparseable? then 1 else 0)
    ensures lastEntryId == LastId(parse, lines)
  {
    validLines, scarLines, lastEntryId := 0, 0, None;
    var index := 0;
    while index < |lines|
      invariant index <= |lines|
      invariant validLines == CountValid(parse, lines[..index])
      invariant scarLines == index - validLines
                             - (if index == |lines| > 0 && freshTear && parse(lines[|lines| - 1]).Unparseable?
                                then 1 else 0)
      invariant lastEntryId == LastId(parse, lines[..index])
    {
      assert lines[..index + 1][..index] == lines[..index];
      assert lines[index] in lines;
      match parse(lines[index]) {
        case Unparseable =>
          var isFragment := freshTear && index == |lines| - 1;
          if !isFragment {
            scarLines := scarLines + 1;
          }
        case Value(id, _) =>
          validLines := validLines + 1;
          if id.Some? {
            lastEntryId := id;
          }
      }
      index := index + 1;
    }
    assert lines[..|lines|] == lines;
  }

  lemma {:induction false} NonEmptyLastId(parse: Parser, lines: seq<seq<Byte>>)
    ensures LastId(parse, NonEmpty(lines)) == LastId(parse, lines)
  {
    if lines != [] {
      NonEmptyLastId(parse, lines[1..]);
      var head := if lines[0] == [] then [] else [lines[0]];
      LastIdSplits(parse, head, NonEmpty(lines[1..]));
      LastIdSplits(parse, [lines[0]], lines[1..]);
      assert lines == [lines[0]] + lines[1..];
      OneLine(parse, lines[0]);
    }
  }

  lemma OneLine(parse: Parser, line: seq<Byte>)
    ensures LastId(parse, [line]) == EntryId(parse, line)
  {
    var one: seq<seq<Byte>> := [line];
    assert one[..0] == [];
  }

  lemma NothingNamed(parse: Parser, file: seq<Byte>)
    requires file == []
    ensures LastId(parse, Lines(file)) == None
  {
    OneLine(parse, []);
    assert Lines(file) == [[]];
  }

  lemma {:induction false} LastPiece(content: seq<Byte>)
    requires content != []
    ensures var lines := Lines(content);
            lines[|lines| - 1] == [] <==> content[|content| - 1] == NEWLINE
  {
    if |content| > 1 {
      LastPiece(content[1..]);
    } else {
      assert content[1..] == [] && Lines([]) == [[]];
      assert content == [content[0]];
    }
  }

  /** A fresh tear is the last piece, so it survives the removal of empty lines. */
  lemma TearIsLast(content: seq<Byte>)
    requires content != [] && content[|content| - 1] != NEWLINE
    ensures var lines, kept := Lines(content), NonEmpty(Lines(content));
            kept != [] && kept[|kept| - 1] == lines[|lines| - 1]
  {
    LastPiece(content);
    KeepsLast(Lines(content));
  }

  lemma {:induction false} KeepsLast(lines: seq<seq<Byte>>)
    requires lines != [] && lines[|lines| - 1] != []
    ensures NonEmpty(lines) != [] && NonEmpty(lines)[|NonEmpty(lines)| - 1] == lines[|lines| - 1]
  {
    if |lines| > 1 {
      KeepsLast(lines[1..]);
    } else {
      assert lines[1..] == [];
    }
  }

  // ---- The two agree --------------------------------------------------------

  /** On every file and with any parser the tail reader names the entry the scan names. */
  method NewestEntry(parse: Parser, file: seq<Byte>) returns (tail: Option<Id>, scan: Integrity)
    ensures tail == scan.lastEntryId == LastId(parse, Lines(file))
  {
    tail := LastEntryIdFromTail(parse, file);
    scan := InspectSessionFile(parse, Some(file));
  }
}
