/** limitTextWidth (LunaHook/embed_util.cc): no line longer than the given width. */
module TextWidth {
  import opened Division
  import opened StringUtils

  const NEWLINE := "\n"

  /** A line cut into pieces of the width, the last one possibly shorter. */
  function Chunks(line: string, size: nat): (pieces: seq<string>)
    requires 1 <= size
    ensures pieces != []
    decreases |line|
  {
    if |line| <= size then [line] else [line[..size]] + Chunks(line[size..], size)
  }

  function Wrapped(line: string, size: nat): string
    requires 1 <= size
  {
    Join(Chunks(line, size), NEWLINE)
  }

  function WrappedLines(lines: seq<string>, size: nat): (r: seq<string>)
    requires 1 <= size
    ensures |r| == |lines|
  {
    seq(|lines|, i requires 0 <= i < |lines| => Wrapped(lines[i], size))
  }

  function Limited(text: string, size: nat): string
    requires 1 <= size
  {
    Join(WrappedLines(Split(text, NEWLINE), size), NEWLINE)
  }

  // ---------- the lines of the result ----------

  function AllChunks(lines: seq<string>, size: nat): (r: seq<string>)
    requires 1 <= size
    ensures lines != [] ==> r != []
    decreases |lines|
  {
    if lines == [] then [] else Chunks(lines[0], size) + AllChunks(lines[1..], size)
  }

  lemma {:induction false} JoinAppend(a: seq<string>, b: seq<string>, delim: string)
    requires a != [] && b != []
    ensures Join(a + b, delim) == Join(a, delim) + delim + Join(b, delim)
    decreases |a|
  {
    if |a| == 1 {
      assert a + b == [a[0]] + b;
      JoinCons(a[0], b, delim);
    } else {
      assert a + b == [a[0]] + (a[1..] + b);
      JoinCons(a[0], a[1..] + b, delim);
      JoinAppend(a[1..], b, delim);
    }
  }

  /** The result is the pieces of all lines, one per line. */
  lemma {:induction false} JoinOfWrapped(lines: seq<string>, size: nat)
    requires 1 <= size && lines != []
    ensures Join(WrappedLines(lines, size), NEWLINE) == Join(AllChunks(lines, size), NEWLINE)
    decreases |lines|
  {
    var w := WrappedLines(lines, size);
    assert w[0] == Wrapped(lines[0], size);
    if |lines| == 1 {
      assert Chunks(lines[0], size) + [] == Chunks(lines[0], size);
    } else {
      assert w[1..] == WrappedLines(lines[1..], size);
      JoinOfWrapped(lines[1..], size);
      JoinAppend(Chunks(lines[0], size), AllChunks(lines[1..], size), NEWLINE);
    }
  }

  lemma {:induction false} ChunksAre(line: string, size: nat)
    requires 1 <= size && '\n' !in line
    ensures forall i :: 0 <= i < |Chunks(line, size)| ==> |Chunks(line, size)[i]| <= size && '\n' !in Chunks(line, size)[i]
    ensures |Chunks(line, size)| == if line == "" then 1 else (|line| + size - 1) / size
    decreases |line|
  {
    if |line| > size {
      ChunksAre(line[size..], size);
      CeilStep(|line|, size);
    }
  }

  lemma CeilStep(n: nat, size: nat)
    requires 1 <= size < n
    ensures (n + size - 1) / size == 1 + (n - size + size - 1) / size
  {
    DivPlusOne(n - 1, size);
  }

  lemma DivPlusOne(a: nat, b: nat)
    requires 1 <= b
    ensures (a + b) / b == a / b + 1 && (a + b) % b == a % b
  {
    assert a + b == (a / b + 1) * b + a % b;
    DivModUnique(a + b, b, a / b + 1, a % b);
  }

  predicate Narrow(lines: seq<string>, size: nat) {
    forall i :: 0 <= i < |lines| ==> |lines[i]| <= size && '\n' !in lines[i]
  }

  lemma {:induction false} AllChunksAre(lines: seq<string>, size: nat)
    requires 1 <= size && forall i :: 0 <= i < |lines| ==> '\n' !in lines[i]
    ensures Narrow(AllChunks(lines, size), size)
    decreases |lines|
  {
    if lines != [] {
      ChunksAre(lines[0], size);
      AllChunksAre(lines[1..], size);
    }
  }

  lemma LinesAreClean(text: string)
    ensures forall i :: 0 <= i < |Split(text, NEWLINE)| ==> '\n' !in Split(text, NEWLINE)[i]
  {
    var lines := Split(text, NEWLINE);
    PiecesAreClean(text, NEWLINE);
    forall i | 0 <= i < |lines|
      ensures '\n' !in lines[i]
    {
      assert lines[i] in lines;
      NotContained(lines[i], '\n');
    }
  }

  /** The lines of the result are the pieces of the lines of the text: none is too long. */
  lemma LimitedLines(text: string, size: nat)
    requires 1 <= size
    ensures Split(Limited(text, size), NEWLINE) == AllChunks(Split(text, NEWLINE), size)
    ensures Narrow(Split(Limited(text, size), NEWLINE), size)
  {
    var lines := Split(text, NEWLINE);
    LinesAreClean(text);
    AllChunksAre(lines, size);
    JoinOfWrapped(lines, size);
    SplitOfJoin(AllChunks(lines, size), '\n');
  }

  // ---------- nothing but line breaks is added ----------

  function WithoutBreaks(s: string): string {
    if s == "" then "" else if s[0] == '\n' then WithoutBreaks(s[1..]) else [s[0]] + WithoutBreaks(s[1..])
  }

  lemma {:induction false} WithoutBreaksAppend(a: string, b: string)
    ensures WithoutBreaks(a + b) == WithoutBreaks(a) + WithoutBreaks(b)
    ensures '\n' !in a ==> WithoutBreaks(a) == a
  {
    if a == "" {
      assert a + b == b;
    } else {
      assert (a + b)[1..] == a[1..] + b;
      WithoutBreaksAppend(a[1..], b);
      assert [a[0]] + a[1..] == a;
    }
  }

  lemma JoinWithoutBreaks(piece: string, pieces: seq<string>)
    requires pieces != []
    ensures WithoutBreaks(Join([piece] + pieces, NEWLINE)) == WithoutBreaks(piece) + WithoutBreaks(Join(pieces, NEWLINE))
  {
    JoinCons(piece, pieces, NEWLINE);
    assert piece + NEWLINE + Join(pieces, NEWLINE) == piece + (NEWLINE + Join(pieces, NEWLINE));
    WithoutBreaksAppend(piece, NEWLINE + Join(pieces, NEWLINE));
    assert (NEWLINE + Join(pieces, NEWLINE))[1..] == Join(pieces, NEWLINE);
  }

  lemma {:induction false} WrappedWithoutBreaks(line: string, size: nat)
    requires 1 <= size
    ensures WithoutBreaks(Wrapped(line, size)) == WithoutBreaks(line)
    decreases |line|
  {
    if |line| > size {
      WrappedWithoutBreaks(line[size..], size);
      JoinWithoutBreaks(line[..size], Chunks(line[size..], size));
      WithoutBreaksAppend(line[..size], line[size..]);
      assert line == line[..size] + line[size..];
    }
  }

  lemma {:induction false} WrappedLinesWithoutBreaks(lines: seq<string>, size: nat)
    requires 1 <= size && lines != []
    ensures WithoutBreaks(Join(WrappedLines(lines, size), NEWLINE)) == WithoutBreaks(Join(lines, NEWLINE))
    decreases |lines|
  {
    var w := WrappedLines(lines, size);
    WrappedWithoutBreaks(lines[0], size);
    if |lines| > 1 {
      assert w[1..] == WrappedLines(lines[1..], size);
      assert w == [w[0]] + w[1..] && lines == [lines[0]] + lines[1..];
      JoinWithoutBreaks(w[0], w[1..]);
      JoinWithoutBreaks(lines[0], lines[1..]);
      WrappedLinesWithoutBreaks(lines[1..], size);
    }
  }

  /** Apart from line breaks, the text is unchanged. */
  lemma LimitedKeepsText(text: string, size: nat)
    requires 1 <= size
    ensures WithoutBreaks(Limited(text, size)) == WithoutBreaks(text)
  {
    WrappedLinesWithoutBreaks(Split(text, NEWLINE), size);
    JoinOfSplit(text, NEWLINE);
  }

  /** Limiting a second time changes nothing. */
  lemma LimitedIsIdempotent(text: string, size: nat)
    requires 1 <= size
    ensures Limited(Limited(text, size), size) == Limited(text, size)
  {
    var out := Limited(text, size);
    var lines := Split(out, NEWLINE);
    LimitedLines(text, size);
    assert WrappedLines(lines, size) == lines;
    JoinOfSplit(out, NEWLINE);
  }

  // ---------- the loops ----------

  /** The loop over one line has copied i characters and put a break behind every size of them, save at the end. */
  function Copied(line: string, size: nat, i: nat): string
    requires 1 <= size && i <= |line|
  {
    if i == 0 then ""
    else Copied(line, size, i - 1) + [line[i - 1]] + if i < |line| && i % size == 0 then NEWLINE else ""
  }

  lemma {:induction false} CopiedShort(line: string, size: nat, i: nat)
    requires 1 <= size && i <= |line| && (i < size || i == |line| <= size)
    ensures Copied(line, size, i) == line[..i]
  {
    if i > 0 {
      CopiedShort(line, size, i - 1);
      if i < |line| {
        DivModUnique(i, size, 0, i);
      }
      assert line[..i] == line[..i - 1] + [line[i - 1]];
    }
  }

  lemma {:induction false} CopiedLater(line: string, size: nat, i: nat)
    requires 1 <= size && size <= i <= |line| && size < |line|
    ensures Copied(line, size, i) == line[..size] + NEWLINE + Copied(line[size..], size, i - size)
    decreases i
  {
    if i == size {
      CopiedShort(line, size, size - 1);
      assert line[..size] == line[..size - 1] + [line[size - 1]];
      DivModUnique(size, size, 1, 0);
    } else {
      CopiedLater(line, size, i - 1);
      ModMinus(i, size);
    }
  }

  lemma ModMinus(i: nat, size: nat)
    requires 1 <= size <= i
    ensures i % size == (i - size) % size
  {
    DivPlusOne(i - size, size);
  }

  lemma WrappedShort(line: string, size: nat)
    requires 1 <= size && |line| <= size
    ensures Wrapped(line, size) == line
  {
  }

  lemma WrappedLong(line: string, size: nat)
    requires 1 <= size < |line|
    ensures Wrapped(line, size) == line[..size] + NEWLINE + Wrapped(line[size..], size)
  {
    hide Join;
    JoinCons(line[..size], Chunks(line[size..], size), NEWLINE);
  }

  lemma {:induction false} CopiedIsWrapped(line: string, size: nat)
    requires 1 <= size
    ensures Copied(line, size, |line|) == Wrapped(line, size)
    decreases |line|
  {
    hide Copied, Wrapped;
    if |line| <= size {
      CopiedShort(line, size, |line|);
      WrappedShort(line, size);
    } else {
      CopiedLater(line, size, |line|);
      CopiedIsWrapped(line[size..], size);
      WrappedLong(line, size);
    }
  }

  /** line.size() <= size compares without sign, so a negative size is larger than every length. */
  predicate Fits(line: string, size: int) { size < 0 || |line| <= size }

  /** The lambda of limitTextWidth. */
  method WrapLine(line: string, size: int) returns (ret: string)
    requires size != 0
    ensures ret == if size < 0 then line else Wrapped(line, size)
  {
    if Fits(line, size) {
      return line;
    }
    CopiedIsWrapped(line, size);
    ret := "";
    for i := 0 to |line|
      invariant ret == Copied(line, size, i)
    {
      ret := ret + [line[i]];
      if i < |line| - 1 && (1 + i) % size == 0 {
        ret := ret + "\n";
      }
    }
  }

  /** What becomes of the lines. */
  function Target(lines: seq<string>, size: int): (r: seq<string>)
    requires size != 0
    ensures |r| == |lines|
    ensures forall i :: 0 <= i < |lines| ==> r[i] == if size < 0 then lines[i] else Wrapped(lines[i], size)
  {
    if size < 0 then lines else WrappedLines(lines, size)
  }

  method LimitTextWidth(text: string, size: int) returns (ret: string)
    requires size != 0
    ensures ret == if size < 0 then text else Limited(text, size)
  {
    hide Join, Wrapped;
    var lines := StrSplit(text, NEWLINE);
    ghost var split := lines;
    for i := 0 to |lines|
      invariant |lines| == |split|
      invariant forall j :: 0 <= j < i ==> lines[j] == Target(split, size)[j]
      invariant forall j :: i <= j < |lines| ==> lines[j] == split[j]
    {
      var line := WrapLine(lines[i], size);
      lines := lines[i := line];
    }
    assert lines == Target(split, size);
    JoinOfSplit(text, NEWLINE);
    ret := JoinLines(lines);
  }

  /** The last loop of limitTextWidth. */
  method JoinLines(lines: seq<string>) returns (ret: string)
    requires lines != []
    ensures ret == Join(lines, NEWLINE)
  {
    ret := "";
    for i := 0 to |lines|
      invariant i < |lines| ==> Join(lines, NEWLINE) == ret + Join(lines[i..], NEWLINE)
      invariant i == |lines| ==> Join(lines, NEWLINE) == ret
    {
      assert i + 1 < |lines| ==> lines[i..][1..] == lines[i + 1..];
      ret := ret + lines[i];
      if i < |lines| - 1 {
        ret := ret + "\n";
      }
    }
  }
}
