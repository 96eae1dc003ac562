/** Lines and trimming, as `fgets` and `trim_text` treat them. */
module Text {
  import opened Prelude
  import opened KeyValue

  /** The usable length of a 256-byte line buffer. */
  const LINE_CAP := 255

  // ---- Trimming ----

  /** The text before the first carriage return or newline. */
  function CutLine(s: string): (t: string)
    ensures t <= s && '\r' !in t && '\n' !in t
  {
    if |s| == 0 || s[0] == '\r' || s[0] == '\n' then "" else [s[0]] + CutLine(s[1..])
  }

  function TrimRight(s: string): (t: string)
    ensures t <= s
    ensures |t| > 0 ==> !IsSpace(t[|t| - 1])
  {
    if |s| > 0 && IsSpace(s[|s| - 1]) then TrimRight(s[..|s| - 1]) else s
  }

  /** `trim_text`. */
  function Trim(s: string): (t: string)
    ensures IsTrimmed(t) && |t| <= |s|
  {
    var line := CutLine(s);
    TrimRight(line[SkipSpacesTo(line)..])
  }

  /** The first position that holds no space. */
  function SkipSpacesTo(s: string): (k: nat)
    ensures k <= |s|
    ensures k < |s| ==> !IsSpace(s[k])
  {
    if |s| > 0 && IsSpace(s[0]) then 1 + SkipSpacesTo(s[1..]) else 0
  }

  /** Nothing to trim: no line break, and no space at either end. */
  predicate IsTrimmed(s: string) {
    '\r' !in s && '\n' !in s && (|s| > 0 ==> !IsSpace(s[0]) && !IsSpace(s[|s| - 1]))
  }

  lemma {:induction false} CutLineKeeps(s: string, rest: string)
    requires '\r' !in s && '\n' !in s && (rest == "" || rest[0] == '\n' || rest[0] == '\r')
    ensures CutLine(s + rest) == s
  {
    if |s| > 0 {
      CutLineKeeps(s[1..], rest);
      assert (s + rest)[1..] == s[1..] + rest;
      assert [s[0]] + s[1..] == s;
    } else {
      assert s + rest == rest;
    }
  }

  /** Trimming leaves a trimmed text alone, with or without a newline after it. */
  lemma TrimKeeps(s: string)
    requires IsTrimmed(s)
    ensures Trim(s) == s && Trim(s + "\n") == s
  {
    hide CutLine;
    CutLineKeeps(s, "");
    CutLineKeeps(s, "\n");
    assert s + "" == s && s[0..] == s;
    assert SkipSpacesTo(s) == 0 && TrimRight(s) == s;
  }

  /** Padding within a line. */
  predicate IsPad(s: string) {
    forall i | 0 <= i < |s| :: IsSpace(s[i]) && s[i] != '\r' && s[i] != '\n'
  }

  lemma {:induction false} SkipsPad(pad: string, rest: string)
    requires IsPad(pad) && (|rest| > 0 ==> !IsSpace(rest[0]))
    ensures SkipSpacesTo(pad + rest) == |pad|
  {
    if |pad| > 0 {
      assert (pad + rest)[1..] == pad[1..] + rest;
      SkipsPad(pad[1..], rest);
    } else {
      assert pad + rest == rest;
    }
  }

  lemma {:induction false} DropsPad(s: string, pad: string)
    requires IsPad(pad) && (|s| > 0 ==> !IsSpace(s[|s| - 1]))
    ensures TrimRight(s + pad) == s
  {
    if |pad| > 0 {
      var n := |pad| - 1;
      assert (s + pad)[..|s + pad| - 1] == s + pad[..n];
      DropsPad(s, pad[..n]);
    } else {
      assert s + pad == s;
    }
  }

  /** Trimming takes the padding off both sides, and the end of the line. */
  lemma TrimPadded(left: string, s: string, right: string, end: string)
    requires IsPad(left) && IsTrimmed(s) && IsPad(right)
    requires end == "" || end[0] == '\n' || end[0] == '\r'
    ensures Trim(left + s + right + end) == s
  {
    hide CutLine, SkipSpacesTo, TrimRight;
    CutLineKeeps(left + s + right, end);
    if s == "" {
      assert left + s + right == (left + right) + "";
      SkipsPad(left + right, "");
      DropsPad("", "");
    } else {
      assert left + s + right == left + (s + right);
      SkipsPad(left, s + right);
      assert (left + (s + right))[|left|..] == s + right;
      DropsPad(s, right);
    }
  }

  // ---- Lines ----

  /** Where the line that `fgets` reads at the start of `s` ends: after a newline, or with the buffer full. */
  function LineEnd(s: string, limit: nat): (k: nat)
    ensures k <= |s| && k <= limit
    ensures limit > 0 && |s| > 0 ==> k > 0
    ensures forall i | 0 <= i < k - 1 :: s[i] != '\n'
    ensures k < |s| && k < limit ==> k > 0 && s[k - 1] == '\n'
  {
    if |s| == 0 || limit == 0 then 0
    else if s[0] == '\n' then 1
    else 1 + LineEnd(s[1..], limit - 1)
  }

  /** The pieces that successive calls of `fgets` return. */
  function Split(file: string): (lines: seq<string>)
    ensures Flatten(lines) == file
  {
    if |file| == 0 then []
    else
      var k := LineEnd(file, LINE_CAP);
      var rest := Split(file[k..]);
      assert ([file[..k]] + rest)[1..] == rest;
      assert file[..k] + file[k..] == file;
      [file[..k]] + rest
  }

  lemma SplitAt(file: string, pos: nat)
    requires pos < |file|
    ensures var end := pos + LineEnd(file[pos..], LINE_CAP);
      pos < end <= |file| && Split(file[pos..]) == [file[pos..end]] + Split(file[end..])
  {
    hide LineEnd;
    var k := LineEnd(file[pos..], LINE_CAP);
    assert file[pos..][..k] == file[pos..pos + k] && file[pos..][k..] == file[pos + k..];
  }

  /** One step of a reading loop: the piece at `pos` moves over to the lines read so far. */
  lemma NextPiece(file: string, pos: nat, lines: seq<string>)
    requires pos < |file| && Split(file) == lines + Split(file[pos..])
    ensures var end := pos + LineEnd(file[pos..], LINE_CAP);
      pos < end <= |file| && Split(file) == (lines + [file[pos..end]]) + Split(file[end..])
  {
    hide Split, LineEnd, Flatten;
    SplitAt(file, pos);
    var end := pos + LineEnd(file[pos..], LINE_CAP);
    MoveOver(lines, file[pos..end], Split(file[end..]));
  }

  lemma MoveOver<T>(before: seq<T>, x: T, after: seq<T>)
    ensures before + ([x] + after) == (before + [x]) + after
  {
  }

  predicate EndsLine(piece: string) {
    |piece| > 0 && piece[|piece| - 1] == '\n'
  }

  /** The check after `fgets`: the piece ends a line, or the end of the file was seen. */
  predicate Whole(piece: string) {
    EndsLine(piece) || |piece| < LINE_CAP
  }

  /** After trimming: a blank line or a comment. */
  predicate Ignorable(t: string) {
    t == "" || t[0] == '#'
  }

  /** A piece that `fgets` returns without a look at what follows: it ends a line, or it fills the buffer. */
  predicate IsPiece(piece: string) {
    && 0 < |piece| <= LINE_CAP && (EndsLine(piece) || |piece| == LINE_CAP)
    && forall i | 0 <= i < |piece| - 1 :: piece[i] != '\n'
  }

  /** A line with its newline, short enough for the buffer. */
  predicate IsLine(line: string) {
    0 < |line| <= LINE_CAP && EndsLine(line) && forall i | 0 <= i < |line| - 1 :: line[i] != '\n'
  }

  lemma {:induction false} LineEndOf(piece: string, rest: string, limit: nat)
    requires 0 < |piece| <= limit && (EndsLine(piece) || |piece| == limit)
    requires forall i | 0 <= i < |piece| - 1 :: piece[i] != '\n'
    ensures LineEnd(piece + rest, limit) == |piece|
  {
    if |piece| > 1 {
      assert (piece + rest)[1..] == piece[1..] + rest;
      assert piece[0] != '\n';
      forall i | 0 <= i < |piece[1..]| - 1 ensures piece[1..][i] != '\n' {
        assert piece[1..][i] == piece[i + 1];
      }
      LineEndOf(piece[1..], rest, limit - 1);
    }
  }

  lemma SplitStep(piece: string, rest: string)
    requires IsPiece(piece)
    ensures Split(piece + rest) == [piece] + Split(rest)
  {
    LineEndOf(piece, rest, LINE_CAP);
    assert (piece + rest)[|piece|..] == rest && (piece + rest)[..|piece|] == piece;
  }

  lemma SplitLast(last: string)
    requires '\n' !in last && 0 < |last| < LINE_CAP
    ensures Split(last) == [last]
  {
    LineEndOfLast(last, LINE_CAP);
    assert last[|last|..] == "" && last[..|last|] == last;
  }

  lemma LineIsPiece(line: string)
    requires IsLine(line)
    ensures IsPiece(line)
  {
  }

  /** A file made of such lines, with at most one unfinished piece at its end, is read back as those lines. */
  lemma {:induction false} SplitOfLines(lines: seq<string>, last: string)
    requires forall i | 0 <= i < |lines| :: IsLine(lines[i])
    requires last == "" || (|last| < LINE_CAP && '\n' !in last)
    ensures Split(Flatten(lines) + last) == lines + (if last == "" then [] else [last])
  {
    hide Split, IsLine;
    if |lines| == 0 {
      assert Flatten<char>([]) + last == last;
      if last != "" {
        SplitLast(last);
      } else {
        SplitNothing();
      }
    } else {
      var rest := Flatten(lines[1..]) + last;
      assert Flatten(lines) + last == lines[0] + rest;
      LineIsPiece(lines[0]);
      SplitStep(lines[0], rest);
      SplitOfLines(lines[1..], last);
    }
  }

  lemma SplitOfWholeLines(lines: seq<string>)
    requires forall i | 0 <= i < |lines| :: IsLine(lines[i])
    ensures Split(Flatten(lines)) == lines
  {
    hide Split, IsLine, Flatten;
    SplitOfLines(lines, "");
    assert Flatten(lines) + "" == Flatten(lines) && lines + [] == lines;
  }

  lemma SplitNothing()
    ensures Split("") == []
  {
  }

  lemma {:induction false} LineEndOfLast(last: string, limit: nat)
    requires |last| <= limit && '\n' !in last
    ensures LineEnd(last, limit) == |last|
  {
    if |last| > 0 {
      LineEndOfLast(last[1..], limit - 1);
    }
  }

  /** Every piece but the last ends a line or fills the buffer. */
  lemma {:induction false} SplitPieces(file: string, i: nat)
    requires i < |Split(file)|
    ensures var p := Split(file)[i];
      && 0 < |p| <= LINE_CAP && (forall j | 0 <= j < |p| - 1 :: p[j] != '\n')
      && (i < |Split(file)| - 1 ==> EndsLine(p) || |p| == LINE_CAP)
  {
    var k := LineEnd(file, LINE_CAP);
    if i > 0 {
      SplitPieces(file[k..], i - 1);
    } else if |Split(file)| > 1 {
      assert |file[k..]| > 0;
    }
  }

  // ---- Reading that fails ----

  /** How a file can be read: not at all, or up to the position of a read error, if there is one. */
  datatype Reading = Fails | Reads(errorAt: Option<nat>)

  /** What `fgets` returns of a text behind which reading fails: the complete pieces. */
  function Complete(s: string): (t: string)
    ensures t <= s
  {
    var k := LineEnd(s, LINE_CAP);
    if |s| > 0 && IsPiece(s[..k]) then s[..k] + Complete(s[k..]) else ""
  }

  /** What a loop over `fgets` gets to see of a file. The loops take an error for the end of the file. */
  function Delivered(file: string, errorAt: Option<nat>): (t: string)
    ensures t <= file
  {
    if errorAt.None? || errorAt.value > |file| then file else Complete(file[..errorAt.value])
  }

  /** And nothing at all when the file is missing or cannot be opened. */
  function Seen(file: Option<string>, r: Reading): Option<string> {
    if file.None? || r.Fails? then None else Some(Delivered(file.value, r.errorAt))
  }

  lemma {:induction false} CompleteIsPrefix(s: string, rest: string)
    ensures Split(Complete(s)) <= Split(s + rest)
    ensures forall i | 0 <= i < |Split(Complete(s))| :: IsPiece(Split(Complete(s))[i])
  {
    hide Split, Flatten, LineEnd, IsPiece;
    var k := LineEnd(s, LINE_CAP);
    SplitNothing();
    if |s| > 0 && IsPiece(s[..k]) {
      var (piece, tail) := (s[..k], s[k..]);
      PieceIsThere(piece);
      assert s + rest == piece + (tail + rest);
      SplitStep(piece, tail + rest);
      SplitStep(piece, Complete(tail));
      CompleteIsPrefix(tail, rest);
    }
  }

  lemma PieceIsThere(piece: string)
    requires IsPiece(piece)
    ensures |piece| > 0
  {
  }

  /** A read error hides lines, but it neither changes nor cuts any. */
  lemma DeliveredLines(file: string, errorAt: Option<nat>)
    ensures Split(Delivered(file, errorAt)) <= Split(file)
    ensures Delivered(file, errorAt) != file ==>
      forall i | 0 <= i < |Split(Delivered(file, errorAt))| :: IsPiece(Split(Delivered(file, errorAt))[i])
  {
    hide Split, Complete, IsPiece;
    if errorAt.Some? && errorAt.value <= |file| {
      var e := errorAt.value;
      assert file[..e] + file[e..] == file;
      CompleteIsPrefix(file[..e], file[e..]);
    }
  }

  /** How many characters the pieces before the `k`-th have. */
  function Before(lines: seq<string>, k: nat): nat
    requires k <= |lines|
  {
    |Flatten(lines[..k])|
  }

  lemma BeforeStep(lines: seq<string>, k: nat)
    requires k < |lines|
    ensures Before(lines, k + 1) == |lines[0]| + Before(lines[1..], k)
  {
    assert lines[..k + 1][0] == lines[0] && lines[..k + 1][1..] == lines[1..][..k];
  }

  /** A piece is seen exactly when it is complete before the error, and so are all pieces before it. */
  lemma {:induction false} CompleteIff(s: string, rest: string, i: nat)
    requires i < |Split(s + rest)|
    ensures i < |Split(Complete(s))| <==>
      (forall j | 0 <= j <= i :: IsPiece(Split(s + rest)[j])) && Before(Split(s + rest), i + 1) <= |s|
    decreases i
  {
    hide Split, Flatten, LineEnd, IsPiece;
    var lines := Split(s + rest);
    var k := LineEnd(s, LINE_CAP);
    SplitNothing();
    BeforeStep(lines, i);
    if |s| > 0 && IsPiece(s[..k]) {
      var (piece, tail) := (s[..k], s[k..]);
      PieceIsThere(piece);
      assert s + rest == piece + (tail + rest);
      SplitStep(piece, tail + rest);
      SplitStep(piece, Complete(tail));
      if i > 0 {
        CompleteIff(tail, rest, i - 1);
      } else {
        BeforeNothing(lines[1..]);
      }
    } else {
      FirstIsCut(s, rest);
    }
  }

  /** So a read error hides exactly the lines that are not complete before it. */
  lemma DeliveredIff(file: string, errorAt: nat, i: nat)
    requires errorAt <= |file| && i < |Split(file)|
    ensures i < |Split(Delivered(file, Some(errorAt)))| <==>
      (forall j | 0 <= j <= i :: IsPiece(Split(file)[j])) && Before(Split(file), i + 1) <= errorAt
  {
    hide Split, Complete, IsPiece, Before;
    assert file[..errorAt] + file[errorAt..] == file;
    CompleteIff(file[..errorAt], file[errorAt..], i);
  }

  lemma BeforeNothing(lines: seq<string>)
    ensures Before(lines, 0) == 0
  {
  }

  /** When the text before the error does not start with a complete piece, the first piece of the file goes on behind it. */
  lemma FirstIsCut(s: string, rest: string)
    requires s + rest != "" && (s == "" || !IsPiece(s[..LineEnd(s, LINE_CAP)]))
    ensures var lines := Split(s + rest);
      |lines| > 0 && (IsPiece(lines[0]) ==> |lines[0]| > |s|)
  {
    hide Flatten;
    var file := s + rest;
    var k := LineEnd(file, LINE_CAP);
    if IsPiece(file[..k]) && k <= |s| {
      assert s == file[..k] + s[k..];
      LineEndOf(file[..k], s[k..], LINE_CAP);
    }
  }
}
