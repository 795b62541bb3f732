/**
 The random-line endpoint: read the link file as a list of lines with
 PHP's `file($path, FILE_IGNORE_NEW_LINES | FILE_SKIP_EMPTY_LINES)`, answer
 404 with a fixed body when the list is missing or empty, and otherwise
 answer with one element of it as plain text.

 The file system is replaced by a `FileRead` value and `array_rand` by the
 index `pick` it would return.
 */
module RandomLine {

  const OkStatus: int := 200
  const NotFoundStatus: int := 404
  const NotFoundBody: string := "No video links found."

  /** What `file()` was given to work on: the file's text, or a read that
      failed (`file()` returns `false`). */
  datatype FileRead = Unreadable | Contents(text: string)

  /** `DefaultType` is PHP's default content type, left in place by the
      404 branch; the success branch sets `text/plain`. */
  datatype ContentType = DefaultType | TextPlain

  datatype Reply = Reply(status: int, contentType: ContentType, body: string)

  /** Position of the first newline character of `c`. */
  function FirstNewline(c: string): (i: nat)
    requires '\n' in c
    ensures i < |c| && c[i] == '\n' && '\n' !in c[..i]
  {
    if c[0] == '\n' then 0
    else
      assert c == [c[0]] + c[1..];
      var i := FirstNewline(c[1..]);
      assert c[..i + 1] == [c[0]] + c[1..][..i];
      i + 1
  }

  /** The pieces of `c` between newline characters, newlines removed; a
      text with n newlines has n + 1 pieces. */
  function Split(c: string): (pieces: seq<string>)
    ensures |pieces| >= 1
    ensures forall k :: 0 <= k < |pieces| ==> '\n' !in pieces[k]
    decreases |c|
  {
    if '\n' !in c then [c]
    else
      var i := FirstNewline(c);
      [c[..i]] + Split(c[i + 1..])
  }

  /** The inverse of `Split`: the pieces glued back with newlines. */
  function Join(pieces: seq<string>): string
    requires |pieces| >= 1
    decreases |pieces|
  {
    if |pieces| == 1 then pieces[0]
    else pieces[0] + "\n" + Join(pieces[1..])
  }

  /** A piece that ended in "\r\n" loses its carriage return together with
      the newline. */
  function StripCR(piece: string): (r: string)
  {
    if piece != [] && piece[|piece| - 1] == '\r' then piece[..|piece| - 1] else piece
  }

  /** A one-line list, or nothing for an empty line. */
  function NonBlank(line: string): (r: seq<string>)
  {
    if line == [] then [] else [line]
  }

  /** The lines `file()` keeps from the pieces of a text: each piece that a
      newline ended, with a carriage return before that newline dropped,
      unless nothing is left of it; and the final piece, which no newline
      ended, verbatim unless it is empty. */
  function Keep(pieces: seq<string>): (lines: seq<string>)
    requires |pieces| >= 1
    requires forall k :: 0 <= k < |pieces| ==> '\n' !in pieces[k]
    ensures forall k :: 0 <= k < |lines| ==> lines[k] != [] && '\n' !in lines[k]
    decreases |pieces|
  {
    if |pieces| == 1 then NonBlank(pieces[0])
    else
      var head := StripCR(pieces[0]);
      assert '\n' !in head by {
        if head != pieces[0] {
          assert forall j :: 0 <= j < |head| ==> head[j] == pieces[0][j];
        }
      }
      NonBlank(head) + Keep(pieces[1..])
  }

  /** `file($path, FILE_IGNORE_NEW_LINES | FILE_SKIP_EMPTY_LINES)` on a file
      whose text is `c`. */
  function FileLines(c: string): (lines: seq<string>)
    ensures forall k :: 0 <= k < |lines| ==> lines[k] != [] && '\n' !in lines[k]
  {
    Keep(Split(c))
  }

  /** The endpoint. `pick` is the key `array_rand` chose, which is a valid
      index whenever there is a line to choose. */
  function Respond(file: FileRead, pick: nat): (r: Reply)
    requires file.Contents? && FileLines(file.text) != [] ==> pick < |FileLines(file.text)|
    ensures r.status == NotFoundStatus <==> file.Unreadable? || FileLines(file.text) == []
    ensures r.status == NotFoundStatus ==> r.body == NotFoundBody && r.contentType == DefaultType
    ensures r.status != NotFoundStatus ==>
      && r.status == OkStatus && r.contentType == TextPlain
      && r.body == FileLines(file.text)[pick]
      && r.body in FileLines(file.text)
      && r.body != [] && '\n' !in r.body
  {
    if file.Unreadable? || |FileLines(file.text)| == 0 then
      Reply(NotFoundStatus, DefaultType, NotFoundBody)
    else
      var lines := FileLines(file.text);
      Reply(OkStatus, TextPlain, lines[pick])
  }

  /** The scan `file()` performs over the text, written as the loop it is:
      find the next newline, cut the line before it (without a carriage
      return just before the newline), skip it if empty, go on after the
      newline, and keep what follows the last newline. It computes exactly
      `FileLines`. */
  method ReadLines(c: string) returns (lines: seq<string>)
    ensures lines == FileLines(c)
  {
    lines := [];
    var rest := c;
    var i: nat := FindNewline(rest);
    while i < |rest|
      invariant i <= |rest| && '\n' !in rest[..i]
      invariant i < |rest| ==> rest[i] == '\n'
      invariant i == |rest| ==> '\n' !in rest
      invariant lines + FileLines(rest) == FileLines(c)
      decreases |rest|
    {
      var len := if i > 0 && rest[i - 1] == '\r' then i - 1 else i;
      lines := CutLine(rest, i, len, lines, c);
      rest := rest[i + 1..];
      i := FindNewline(rest);
    }
    FileLinesLast(rest);
    if rest != [] {
      lines := lines + [rest];
    }
  }

  /** The search for the next newline: its position, or the length of the
      text when there is none. */
  method FindNewline(x: string) returns (i: nat)
    ensures i <= |x| && '\n' !in x[..i]
    ensures i < |x| ==> x[i] == '\n'
    ensures i == |x| ==> '\n' !in x
  {
    i := 0;
    while i < |x| && x[i] != '\n'
      invariant i <= |x| && '\n' !in x[..i]
    {
      assert x[..i + 1] == x[..i] + [x[i]];
      i := i + 1;
    }
    if i == |x| {
      assert x[..i] == x;
    }
  }

  /** One turn of the scan: the lines found so far, with the line cut at
      the newline `i` of `x` added unless it is empty, followed by the
      lines after the newline, are still all the lines of `c`. */
  function CutLine(x: string, i: nat, len: nat, before: seq<string>, c: string): (after: seq<string>)
    requires i < |x| && x[i] == '\n' && '\n' !in x[..i]
    requires len == if i > 0 && x[i - 1] == '\r' then i - 1 else i
    requires before + FileLines(x) == FileLines(c)
    ensures after + FileLines(x[i + 1..]) == FileLines(c)
  {
    FileLinesUnfold(x, i);
    StripCRSlice(x, 0, i, len);
    assert x[0..i] == x[..i] && x[0..len] == x[..len];
    AppendAssoc(before, NonBlank(x[..len]), FileLines(x[i + 1..]));
    before + NonBlank(x[..len])
  }

  lemma AppendAssoc<T>(a: seq<T>, b: seq<T>, c: seq<T>)
    ensures (a + b) + c == a + (b + c)
  {
  }

  /** PHP's `file()` (ext/standard/file.c) drops a carriage return directly
      before the newline when it strips newlines; on a slice of the text
      that test is `StripCR`. */
  lemma StripCRSlice(c: string, s: nat, p: nat, len: nat)
    requires s <= p <= |c|
    requires len == if p - s > 0 && c[p - 1] == '\r' then p - s - 1 else p - s
    ensures StripCR(c[s..p]) == c[s..s + len]
  {
    if p - s > 0 {
      assert c[s..p][p - s - 1] == c[p - 1];
      assert c[s..p][..p - s - 1] == c[s..p - 1];
    }
  }

  lemma {:induction false} FirstNewlineUnique(c: string, i: nat)
    requires i < |c| && c[i] == '\n' && '\n' !in c[..i]
    ensures FirstNewline(c) == i
    decreases i
  {
    if i > 0 {
      assert c[0] == c[..i][0];
      assert c[1..][..i - 1] == c[..i][1..];
      FirstNewlineUnique(c[1..], i - 1);
    }
  }

  /** The lines of a text whose first newline is at `j`: the line before
      it, if anything is left of it, then the lines of the rest. */
  lemma FileLinesUnfold(x: string, j: nat)
    requires j < |x| && x[j] == '\n' && '\n' !in x[..j]
    ensures FileLines(x) == NonBlank(StripCR(x[..j])) + FileLines(x[j + 1..])
  {
    FirstNewlineUnique(x, j);
    var pieces := Split(x);
    assert pieces == [x[..j]] + Split(x[j + 1..]);
    assert pieces[1..] == Split(x[j + 1..]);
  }

  /** A text with no newline is one line, unless it is empty. */
  lemma FileLinesLast(x: string)
    requires '\n' !in x
    ensures FileLines(x) == NonBlank(x)
  {
  }

  /** Splitting then joining gives back the text. */
  lemma {:induction false} JoinSplit(c: string)
    ensures Join(Split(c)) == c
    decreases |c|
  {
    if '\n' in c {
      var i := FirstNewline(c);
      var rest := c[i + 1..];
      JoinSplit(rest);
      assert Split(c)[1..] == Split(rest);
      assert c == c[..i] + "\n" + rest;
    }
  }

  /** Joining newline-free pieces then splitting gives back the pieces. */
  lemma {:induction false} SplitJoin(pieces: seq<string>)
    requires |pieces| >= 1
    requires forall k :: 0 <= k < |pieces| ==> '\n' !in pieces[k]
    ensures Split(Join(pieces)) == pieces
    decreases |pieces|
  {
    if |pieces| > 1 {
      var c := Join(pieces);
      var head := pieces[0];
      assert c == head + "\n" + Join(pieces[1..]);
      assert c[..|head|] == head;
      assert c[|head|] == '\n';
      FirstNewlineUnique(c, |head|);
      assert c[|head| + 1..] == Join(pieces[1..]);
      SplitJoin(pieces[1..]);
      assert pieces == [head] + pieces[1..];
    } else {
      assert '\n' !in pieces[0];
    }
  }

  /** The non-empty elements of a list of pieces, in order. */
  function NonEmpty(pieces: seq<string>): (r: seq<string>)
    decreases |pieces|
  {
    if pieces == [] then [] else NonBlank(pieces[0]) + NonEmpty(pieces[1..])
  }

  /** On a text without carriage returns, the lines are exactly the
      non-empty pieces between newlines: only newlines are removed, and
      lines of blanks are kept. */
  lemma {:induction false} PlainTextLines(c: string)
    requires '\r' !in c
    ensures FileLines(c) == NonEmpty(Split(c))
    decreases |c|
  {
    if '\n' in c {
      var i := FirstNewline(c);
      var rest := c[i + 1..];
      assert '\r' !in rest by {
        assert forall j :: 0 <= j < |rest| ==> rest[j] == c[i + 1 + j];
      }
      assert '\r' !in c[..i] by {
        assert forall j :: 0 <= j < i ==> c[..i][j] == c[j];
      }
      PlainTextLines(rest);
      FileLinesUnfold(c, i);
      var pieces := Split(c);
      assert pieces == [c[..i]] + Split(rest);
      assert pieces[1..] == Split(rest);
      assert StripCR(c[..i]) == c[..i];
    }
  }

  /** Every line of the file, and nothing else, can be the body of a
      successful reply: the random pick ranges over exactly the lines. */
  lemma ServableBodies(c: string)
    ensures forall k :: 0 <= k < |FileLines(c)| ==>
      Respond(Contents(c), k) == Reply(OkStatus, TextPlain, FileLines(c)[k])
    ensures forall line :: line in FileLines(c) ==>
      exists k :: 0 <= k < |FileLines(c)| && Respond(Contents(c), k).body == line
  {
    var lines := FileLines(c);
    forall k | 0 <= k < |lines|
      ensures Respond(Contents(c), k) == Reply(OkStatus, TextPlain, lines[k])
    {
      assert lines != [];
    }
    forall line | line in lines
      ensures exists k :: 0 <= k < |lines| && Respond(Contents(c), k).body == line
    {
      var k :| 0 <= k < |lines| && lines[k] == line;
      assert Respond(Contents(c), k).body == line;
    }
  }

  /** On a text without carriage returns, a piece between newlines is a line
      exactly when it is not empty: lines of blanks are kept, and only the
      empty line is skipped. */
  lemma BlankLinesKept(c: string, line: string)
    requires '\r' !in c
    ensures line in FileLines(c) <==> line in Split(c) && line != []
  {
    PlainTextLines(c);
    NonEmptyMembers(Split(c), line);
  }

  lemma {:induction false} NonEmptyMembers(pieces: seq<string>, line: string)
    ensures line in NonEmpty(pieces) <==> line in pieces && line != []
    decreases |pieces|
  {
    if pieces != [] {
      NonEmptyMembers(pieces[1..], line);
      assert pieces == [pieces[0]] + pieces[1..];
    }
  }

  /** On the file " \n\n\t\n" the lines are " " and "\t". */
  lemma BlankLinesExample()
    ensures FileLines(" \n\n\t\n") == [" ", "\t"]
  {
    BlankFirst();
    BlankSecond();
    BlankThird();
  }

  lemma BlankFirst()
    ensures FileLines(" \n\n\t\n") == [" "] + FileLines("\n\t\n")
  {
    var a := " \n\n\t\n";
    assert a[1] == '\n' && a[..1] == " " && a[2..] == "\n\t\n";
    FileLinesUnfold(a, 1);
  }

  lemma BlankSecond()
    ensures FileLines("\n\t\n") == FileLines("\t\n")
  {
    var a := "\n\t\n";
    assert a[0] == '\n' && a[..0] == [] && a[1..] == "\t\n";
    FileLinesUnfold(a, 0);
  }

  lemma BlankThird()
    ensures FileLines("\t\n") == ["\t"]
  {
    var a := "\t\n";
    assert a[1] == '\n' && a[..1] == "\t" && a[2..] == [];
    FileLinesUnfold(a, 1);
    FileLinesLast([]);
  }

  /** A carriage return before a newline goes with it, so a line that was
      only "\r\n" is skipped; a carriage return at the very end of a file
      without a final newline stays. */
  lemma CarriageReturns(x: string, y: string)
    requires '\n' !in x
    ensures FileLines(x + "\r\n" + y) == NonBlank(x) + FileLines(y)
    ensures FileLines(x + "\r") == [x + "\r"]
  {
    var c := x + "\r\n" + y;
    var j := |x| + 1;
    assert c[..j] == x + "\r" && c[j] == '\n' && c[j + 1..] == y;
    assert '\n' !in x + "\r";
    FileLinesUnfold(c, j);
    assert (x + "\r")[..|x|] == x;
    FileLinesLast(x + "\r");
  }

  /** On the file "h\r\n\r\nt\r" the lines are "h" and "t\r". */
  lemma CarriageReturnsExample()
    ensures FileLines("h\r\n\r\nt\r") == ["h", "t\r"]
  {
    CarriageFirst();
    CarriageSecond();
    CarriageThird();
  }

  lemma CarriageFirst()
    ensures FileLines("h\r\n\r\nt\r") == ["h"] + FileLines("\r\nt\r")
  {
    var b := "h\r\n\r\nt\r";
    assert b[2] == '\n' && b[..2] == "h\r" && b[3..] == "\r\nt\r";
    FileLinesUnfold(b, 2);
    assert StripCR("h\r") == "h" by { assert "h\r"[..1] == "h"; }
  }

  lemma CarriageSecond()
    ensures FileLines("\r\nt\r") == FileLines("t\r")
  {
    var b := "\r\nt\r";
    assert b[1] == '\n' && b[..1] == "\r" && b[2..] == "t\r";
    FileLinesUnfold(b, 1);
    assert StripCR("\r") == [];
  }

  lemma CarriageThird()
    ensures FileLines("t\r") == ["t\r"]
  {
    var b := "t\r";
    assert b[0] != '\n' && b[1] != '\n';
    FileLinesLast(b);
  }

  /** An empty file has no lines, so the endpoint answers 404. */
  lemma EmptyFileHasNoLines()
    ensures FileLines("") == []
    ensures Respond(Contents(""), 0).status == NotFoundStatus
  {
    FileLinesLast("");
  }
}
