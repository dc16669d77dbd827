/** CotophaFilter (LunaHook/engine32/Cotopha.cpp): commands are stripped from a text in place. */
module Cotopha {

  // ---------- what the scan does ----------

  /** The scan reads past the end of the text, or ends with an output. */
  datatype Outcome = Overread | Output(text: string)

  /** First position from i on with one of two characters, |s| if there is none. */
  function Seek(s: string, i: nat, c: char, d: char): (k: nat)
    requires i <= |s|
    ensures i <= k <= |s|
    ensures k < |s| ==> s[k] == c || s[k] == d
    ensures forall j :: i <= j < k ==> s[j] != c && s[j] != d
    decreases |s| - i
  {
    if i == |s| || s[i] == c || s[i] == d then i else Seek(s, i + 1, c, d)
  }

  /** From position i on, with the output so far; n characters are to be filtered, and s is all there is to read. */
  function Scan(s: string, n: nat, i: nat, out: string): Outcome
    requires i <= |s| && n <= |s|
    decreases |s| - i
  {
    if i >= n then Output(out)
    else if s[i] != '\\' then Scan(s, n, i + 1, out + [s[i]])
    else if i + 1 == |s| then Overread
    else if s[i + 1] == 'r' then
      if i + 3 > |s| then Overread else
      var k := Seek(s, i + 3, ':', ';');
      if k == |s| then Overread else ScanToColon(s, n, k + 1, out + s[i + 3..k])
    else ScanToColon(s, n, i + 2, if s[i + 1] == 'n' && out != "" then out + " " else out)
  }

  /** The rest of a command is skipped up to its colon, also beyond the n characters. */
  function ScanToColon(s: string, n: nat, i: nat, out: string): Outcome
    requires i <= |s| && n <= |s|
    decreases |s| - i
  {
    var m := Seek(s, i, ':', ':');
    if m == |s| then Overread else Scan(s, n, m + 1, out)
  }

  // ---------- well-formed streams ----------

  /** A character, a ruby command with base and reading, or another command. */
  datatype Token = Plain(c: char) | Ruby(mark: char, base: string, stop: char, reading: string) | Command(cmd: char, body: string)

  predicate WellFormed(t: Token) {
    match t
    case Plain(c) => c != '\\'
    case Ruby(mark, base, stop, reading) =>
      ':' !in base && ';' !in base && (stop == ';' || stop == ':') && ':' !in reading
    case Command(cmd, body) => cmd != 'r' && ':' !in body
  }

  /** What a ruby command holds: the base, where it stops, and the reading with its colon. */
  function Annotated(base: string, stop: char, reading: string): string { base + ([stop] + (reading + ":")) }

  function Code(t: Token): string {
    match t
    case Plain(c) => [c]
    case Ruby(mark, base, stop, reading) => ['\\'] + (['r'] + ([mark] + Annotated(base, stop, reading)))
    case Command(cmd, body) => ['\\'] + ([cmd] + (body + ":"))
  }

  function Encode(tokens: seq<Token>): string { if tokens == [] then "" else Code(tokens[0]) + Encode(tokens[1..]) }

  /** Base kept, reading dropped, a newline as a space once there is output. */
  function Rendered(out: string, t: Token): string {
    match t
    case Plain(c) => out + [c]
    case Ruby(_, base, _, _) => out + base
    case Command(cmd, _) => if cmd == 'n' && out != "" then out + " " else out
  }

  function Render(out: string, tokens: seq<Token>): string
    decreases |tokens|
  {
    if tokens == [] then out else Render(Rendered(out, tokens[0]), tokens[1..])
  }

  predicate AllWellFormed(tokens: seq<Token>) { forall i :: 0 <= i < |tokens| ==> WellFormed(tokens[i]) }

  lemma {:induction false} SeekIs(s: string, i: nat, c: char, d: char, k: nat)
    requires i <= k < |s| && (s[k] == c || s[k] == d)
    requires forall j :: i <= j < k ==> s[j] != c && s[j] != d
    ensures Seek(s, i, c, d) == k
    decreases k - i
  {
    if i < k {
      SeekIs(s, i + 1, c, d, k);
    }
  }

  /** The text has p at position i. */
  predicate HasAt(s: string, i: nat, p: string) { i + |p| <= |s| && s[i..i + |p|] == p }

  lemma HasParts(s: string, i: nat, a: string, b: string)
    ensures HasAt(s, i, a + b) <==> HasAt(s, i, a) && HasAt(s, i + |a|, b)
  {
    if i + |a| + |b| <= |s| {
      var whole, u, v := s[i..i + |a| + |b|], s[i..i + |a|], s[i + |a|..i + |a| + |b|];
      assert whole == u + v;
      if u + v == a + b {
        assert (u + v)[..|a|] == (a + b)[..|a|] && (u + v)[|a|..] == (a + b)[|a|..];
      }
    }
  }

  lemma HasInside(s: string, i: nat, p: string)
    requires HasAt(s, i, p)
    ensures i <= |s|
  {
  }

  lemma HasChar(s: string, i: nat, c: char)
    ensures HasAt(s, i, [c]) <==> i < |s| && s[i] == c
  {
    if i < |s| {
      assert s[i..i + 1] == [s[i]];
    }
  }

  lemma SeekPast(s: string, i: nat, p: string, c: char, d: char)
    requires HasAt(s, i, p) && c !in p && d !in p
    requires i + |p| < |s| && (s[i + |p|] == c || s[i + |p|] == d)
    ensures Seek(s, i, c, d) == i + |p|
  {
    forall j | i <= j < i + |p|
      ensures s[j] != c && s[j] != d
    {
      assert s[j] == s[i..i + |p|][j - i];
    }
    SeekIs(s, i, c, d, i + |p|);
  }

  /** One command other than ruby. */
  lemma ScanCommand(s: string, n: nat, i: nat, t: Token, out: string)
    requires i < n <= |s| && t.Command? && WellFormed(t) && HasAt(s, i, Code(t))
    ensures Scan(s, n, i, out) == Scan(s, n, i + |Code(t)|, Rendered(out, t))
  {
    CommandParts(s, i, t);
    SeekPast(s, i + 2, t.body, ':', ':');
    assert ScanToColon(s, n, i + 2, Rendered(out, t)) == Scan(s, n, i + |Code(t)|, Rendered(out, t));
  }

  lemma CommandParts(s: string, i: nat, t: Token)
    requires t.Command? && HasAt(s, i, Code(t))
    ensures var m := i + 2 + |t.body|;
            m < |s| && s[i] == '\\' && s[i + 1] == t.cmd && HasAt(s, i + 2, t.body) && s[m] == ':'
  {
    hide HasAt;
    HasHead(s, i, '\\', [t.cmd] + (t.body + ":"));
    HasHead(s, i + 1, t.cmd, t.body + ":");
    HasParts(s, i + 2, t.body, ":");
    HasChar(s, i + 2 + |t.body|, ':');
  }

  /** One ruby command. */
  lemma ScanRuby(s: string, n: nat, i: nat, t: Token, out: string)
    requires i < n <= |s| && t.Ruby? && WellFormed(t) && HasAt(s, i, Code(t))
    ensures Scan(s, n, i, out) == Scan(s, n, i + |Code(t)|, out + t.base)
  {
    hide Scan, Seek, Code;
    var k := i + 3 + |t.base|;
    RubyParts(s, i, t);
    SeekPast(s, i + 3, t.base, ':', ';');
    SeekPast(s, k + 1, t.reading, ':', ':');
    ScanAtRuby(s, n, i, k, k + 1 + |t.reading|, out);
    RubyLength(t);
  }

  lemma RubyLength(t: Token)
    requires t.Ruby?
    ensures |Code(t)| == 5 + |t.base| + |t.reading|
  {
  }

  lemma ScanAtRuby(s: string, n: nat, i: nat, k: nat, m: nat, out: string)
    requires i < n <= |s| && i + 3 <= k < m < |s| && s[i] == '\\' && s[i + 1] == 'r'
    requires k == Seek(s, i + 3, ':', ';') && m == Seek(s, k + 1, ':', ':')
    ensures Scan(s, n, i, out) == Scan(s, n, m + 1, out + s[i + 3..k])
  {
    assert ScanToColon(s, n, k + 1, out + s[i + 3..k]) == Scan(s, n, m + 1, out + s[i + 3..k]);
  }

  lemma RubyParts(s: string, i: nat, t: Token)
    requires t.Ruby? && HasAt(s, i, Code(t))
    ensures var k := i + 3 + |t.base|;
            var m := k + 1 + |t.reading|;
            && m < |s| && s[i] == '\\' && s[i + 1] == 'r' && HasAt(s, i + 3, t.base) && s[k] == t.stop
            && HasAt(s, k + 1, t.reading) && s[m] == ':'
  {
    hide HasAt, Annotated;
    RubyHead(s, i, t.mark, Annotated(t.base, t.stop, t.reading));
    AnnotatedParts(s, i + 3, t.base, t.stop, t.reading);
  }

  lemma HasHead(s: string, i: nat, c: char, p: string)
    requires HasAt(s, i, [c] + p)
    ensures i < |s| && s[i] == c && HasAt(s, i + 1, p)
  {
    HasParts(s, i, [c], p);
    HasChar(s, i, c);
  }

  lemma RubyHead(s: string, i: nat, mark: char, p: string)
    requires HasAt(s, i, ['\\'] + (['r'] + ([mark] + p)))
    ensures i + 2 < |s| && s[i] == '\\' && s[i + 1] == 'r' && HasAt(s, i + 3, p)
  {
    hide HasAt;
    HasHead(s, i, '\\', ['r'] + ([mark] + p));
    HasHead(s, i + 1, 'r', [mark] + p);
    HasHead(s, i + 2, mark, p);
  }

  lemma AnnotatedParts(s: string, i: nat, base: string, stop: char, reading: string)
    requires HasAt(s, i, Annotated(base, stop, reading))
    ensures var k := i + |base|;
            var m := k + 1 + |reading|;
            m < |s| && HasAt(s, i, base) && s[k] == stop && HasAt(s, k + 1, reading) && s[m] == ':'
  {
    hide HasAt;
    var k := i + |base|;
    HasParts(s, i, base, [stop] + (reading + ":"));
    HasHead(s, k, stop, reading + ":");
    HasParts(s, k + 1, reading, ":");
    HasChar(s, k + 1 + |reading|, ':');
  }

  /** One token is consumed whole and adds its rendering. */
  lemma ScanToken(s: string, n: nat, i: nat, t: Token, out: string)
    requires i < n <= |s| && WellFormed(t) && HasAt(s, i, Code(t))
    ensures Scan(s, n, i, out) == Scan(s, n, i + |Code(t)|, Rendered(out, t))
  {
    match t
    case Plain(c) => HasChar(s, i, c);
    case Ruby(_, _, _, _) => ScanRuby(s, n, i, t, out);
    case Command(_, _) => ScanCommand(s, n, i, t, out);
  }

  /** The last token starts in front of the given place and ends there or later. */
  predicate Covers(tokens: seq<Token>, n: int) {
    if tokens == [] then n <= 0 else n > 0 && Covers(tokens[1..], n - |Code(tokens[0])|)
  }

  /** A well-formed stream is scanned to its rendering, up to the end of the last token that starts in time. */
  lemma {:induction false} ScanOfEncode(s: string, n: nat, i: nat, tokens: seq<Token>, out: string)
    requires n <= |s| && AllWellFormed(tokens) && HasAt(s, i, Encode(tokens)) && Covers(tokens, n - i)
    ensures Scan(s, n, i, out) == Output(Render(out, tokens))
    decreases |tokens|
  {
    hide Scan, WellFormed, Rendered, Code, HasAt;
    if tokens == [] {
      HasInside(s, i, Encode(tokens));
      ScanOfNothing(s, n, i, out);
    } else {
      var t, later := tokens[0], tokens[1..];
      HasParts(s, i, Code(t), Encode(later));
      assert AllWellFormed(later);
      ScanToken(s, n, i, t, out);
      ScanOfEncode(s, n, i + |Code(t)|, later, Rendered(out, t));
    }
  }

  /** Only such streams are scanned without reading past the end. */
  lemma {:induction false} TokensOf(s: string, n: nat, i: nat, out: string) returns (tokens: seq<Token>)
    requires i <= |s| && n <= |s| && Scan(s, n, i, out) != Overread
    ensures AllWellFormed(tokens) && HasAt(s, i, Encode(tokens)) && Covers(tokens, n - i)
    decreases |s| - i
  {
    hide Scan, WellFormed, Code;
    if i >= n {
      tokens := [];
    } else {
      var t, next, out' := FirstToken(s, n, i, out);
      var later := TokensOf(s, n, next, out');
      tokens := [t] + later;
      assert tokens[1..] == later;
      HasParts(s, i, Code(t), Encode(later));
    }
  }

  lemma FirstToken(s: string, n: nat, i: nat, out: string) returns (t: Token, next: nat, out': string)
    requires i < n <= |s| && Scan(s, n, i, out) != Overread
    ensures WellFormed(t) && i < next <= |s| && Code(t) == s[i..next] && Scan(s, n, next, out') == Scan(s, n, i, out)
  {
    if s[i] != '\\' {
      t, next, out' := Plain(s[i]), i + 1, out + [s[i]];
    } else if s[i + 1] == 'r' {
      t, next := FirstRuby(s, n, i, out);
      out' := out + t.base;
    } else {
      t, next := FirstCommand(s, n, i, out);
      out' := Rendered(out, t);
    }
  }

  lemma SliceAround(s: string, i: nat, j: nat, k: nat)
    requires i <= j <= k <= |s|
    ensures s[i..k] == s[i..j] + s[j..k]
  {
  }

  lemma SliceFirst(s: string, i: nat, k: nat)
    requires i < k <= |s|
    ensures s[i..k] == [s[i]] + s[i + 1..k]
  {
  }

  lemma FirstCommand(s: string, n: nat, i: nat, out: string) returns (t: Token, next: nat)
    requires i < n <= |s| && i + 1 < |s| && s[i] == '\\' && s[i + 1] != 'r' && Scan(s, n, i, out) != Overread
    ensures t.Command? && WellFormed(t) && i < next <= |s| && Code(t) == s[i..next]
    ensures Scan(s, n, next, Rendered(out, t)) == Scan(s, n, i, out)
  {
    var m := Seek(s, i + 2, ':', ':');
    t, next := Command(s[i + 1], s[i + 2..m]), m + 1;
    assert ScanToColon(s, n, i + 2, Rendered(out, t)) == Scan(s, n, i, out);
    hide Scan, ScanToColon, Rendered, Seek;
    SliceAround(s, i + 2, m, m + 1);
    SliceFirst(s, m, m + 1);
    SliceFirst(s, i + 1, m + 1);
    SliceFirst(s, i, m + 1);
  }

  lemma FirstRuby(s: string, n: nat, i: nat, out: string) returns (t: Token, next: nat)
    requires i < n <= |s| && i + 1 < |s| && s[i] == '\\' && s[i + 1] == 'r' && Scan(s, n, i, out) != Overread
    ensures t.Ruby? && WellFormed(t) && i < next <= |s| && Code(t) == s[i..next]
    ensures Scan(s, n, next, out + t.base) == Scan(s, n, i, out)
  {
    var k := Seek(s, i + 3, ':', ';');
    var m := Seek(s, k + 1, ':', ':');
    t, next := Ruby(s[i + 2], s[i + 3..k], s[k], s[k + 1..m]), m + 1;
    RubyCode(s, i, k, m);
  }

  lemma RubyCode(s: string, i: nat, k: nat, m: nat)
    requires i + 3 <= k < m < |s| && s[i] == '\\' && s[i + 1] == 'r' && s[m] == ':'
    ensures Code(Ruby(s[i + 2], s[i + 3..k], s[k], s[k + 1..m])) == s[i..m + 1]
  {
    var tail, body := s[k..m + 1], s[i + 3..m + 1];
    RubyTail(s, k, m);
    SliceAround(s, i + 3, k, m + 1);
    assert body == s[i + 3..k] + tail;
    assert s[i..m + 1] == ['\\'] + (['r'] + ([s[i + 2]] + body)) by {
      SliceFirst(s, i + 2, m + 1);
      SliceFirst(s, i + 1, m + 1);
      SliceFirst(s, i, m + 1);
    }
  }

  lemma RubyTail(s: string, k: nat, m: nat)
    requires k < m < |s| && s[m] == ':'
    ensures s[k..m + 1] == [s[k]] + (s[k + 1..m] + ":")
  {
    SliceAround(s, k + 1, m, m + 1);
    SliceFirst(s, m, m + 1);
    SliceFirst(s, k, m + 1);
  }

  // ---------- the loop ----------

  /** The array holds the output in front and is untouched behind it. */
  ghost predicate Compacted(text: array<char>, full: string, out: string)
    reads text
  {
    |out| <= |full| && text[..] == out + full[|out|..]
  }

  lemma Unread(text: array<char>, full: string, out: string, i: nat)
    requires Compacted(text, full, out) && |out| <= i < |full|
    ensures i < text.Length && text[i] == full[i]
  {
  }

  /** text[lenPurged++] = c, at or before the character being read. */
  method Keep(text: array<char>, lenPurged: nat, c: char, ghost full: string, ghost out: string) returns (next: nat)
    requires Compacted(text, full, out) && lenPurged == |out| < |full|
    modifies text
    ensures next == lenPurged + 1 && Compacted(text, full, out + [c])
  {
    text[lenPurged] := c;
    next := lenPurged + 1;
    assert text[..] == out + [c] + full[|out| + 1..];
  }

  /** The loop that copies the base of a ruby command. */
  method CopyBase(text: array<char>, start: nat, purged: nat, ghost full: string, ghost out: string)
    returns (i: nat, lenPurged: nat)
    requires start <= |full| && Compacted(text, full, out) && purged == |out| <= start
    requires Seek(full, start, ':', ';') < |full|
    modifies text
    ensures i == Seek(full, start, ':', ';')
    ensures lenPurged == purged + (i - start) && Compacted(text, full, out + full[start..i])
  {
    hide Seek, Compacted;
    i, lenPurged := start, purged;
    ghost var k := Seek(full, start, ':', ';');
    ghost var o := out;
    assert out + full[start..start] == out;
    Unread(text, full, o, i);
    while text[i] != ':'
      invariant start <= i <= k && lenPurged == |o| == purged + (i - start) && o == out + full[start..i]
      invariant Compacted(text, full, o) && i < text.Length && text[i] == full[i]
      decreases k - i
    {
      if text[i] == ';' {
        break;
      }
      assert i < k;
      assert full[start..i + 1] == full[start..i] + [full[i]];
      lenPurged := Keep(text, lenPurged, text[i], full, o);
      o := o + [full[i]];
      i := i + 1;
      Unread(text, full, o, i);
    }
    Unread(text, full, o, i);
  }

  /** The loop that skips the rest of a command. */
  method SkipToColon(text: array<char>, start: nat, ghost full: string, ghost out: string) returns (i: nat)
    requires start <= |full| && Compacted(text, full, out) && |out| <= start
    requires Seek(full, start, ':', ':') < |full|
    ensures i == Seek(full, start, ':', ':')
  {
    i := start;
    ghost var m := Seek(full, start, ':', ':');
    Unread(text, full, out, i);
    while text[i] != ':'
      invariant start <= i <= m
      decreases m - i
    {
      Unread(text, full, out, i);
      i := i + 1;
      Unread(text, full, out, i);
    }
    Unread(text, full, out, i);
  }

  /** What a scan that does not read past the end tells about a command. */
  lemma ScanOfCommand(s: string, n: nat, at: nat, out: string)
    requires at < n <= |s| && s[at] == '\\' && Scan(s, n, at, out) != Overread
    ensures at + 1 < |s|
    ensures s[at + 1] != 'r' ==>
              Scan(s, n, at, out) == ScanToColon(s, n, at + 2, if s[at + 1] == 'n' && out != "" then out + " " else out)
  {
  }

  lemma ScanOfRuby(s: string, n: nat, at: nat, out: string) returns (k: nat)
    requires at + 1 < |s| && at < n <= |s| && s[at] == '\\' && s[at + 1] == 'r' && Scan(s, n, at, out) != Overread
    ensures at + 3 <= k < |s| && k == Seek(s, at + 3, ':', ';')
    ensures Scan(s, n, at, out) == ScanToColon(s, n, k + 1, out + s[at + 3..k])
  {
    k := Seek(s, at + 3, ':', ';');
  }

  lemma ScanToColonIs(s: string, n: nat, i: nat, out: string)
    requires i <= |s| && n <= |s| && ScanToColon(s, n, i, out) != Overread
    ensures Seek(s, i, ':', ':') < |s| && ScanToColon(s, n, i, out) == Scan(s, n, Seek(s, i, ':', ':') + 1, out)
  {
  }

  /** One command, from the character behind the backslash to its colon. */
  method ReadCommand(text: array<char>, at: nat, purged: nat, ghost full: string, ghost n: nat, ghost out: string)
    returns (i: nat, lenPurged: nat, ghost out': string)
    requires n <= |full| && at < n && Compacted(text, full, out) && purged == |out| <= at && full[at] == '\\'
    requires at == 0 || |out| + 2 <= at
    requires Scan(full, n, at, out) != Overread
    modifies text
    ensures at < i < |full| && lenPurged == |out'| && |out'| + 2 <= i + 1 && Compacted(text, full, out')
    ensures Scan(full, n, i + 1, out') == Scan(full, n, at, out)
  {
    hide Scan, ScanToColon, Seek, Compacted;
    ghost var s := full;
    ScanOfCommand(s, n, at, out);
    i, lenPurged, out' := at, purged, out;
    i := i + 1;
    Unread(text, full, out, i);
    var cmd := text[i];
    if cmd == 'r' {
      ghost var k := ScanOfRuby(s, n, at, out);
      i := i + 1;
      i, lenPurged := CopyBase(text, i + 1, lenPurged, full, out);
      out' := out + s[at + 3..i];
    } else if cmd == 'n' && lenPurged > 0 {
      lenPurged := Keep(text, lenPurged, ' ', full, out);
      out' := out + " ";
    }
    ScanToColonIs(s, n, i + 1, out');
    i := SkipToColon(text, i + 1, full, out');
  }

  lemma StartCompacted(text: array<char>)
    ensures Compacted(text, text[..], "")
  {
  }

  lemma ScanOfPlain(s: string, n: nat, i: nat, out: string)
    requires i < n <= |s| && s[i] != '\\'
    ensures Scan(s, n, i, out) == Scan(s, n, i + 1, out + [s[i]])
  {
  }

  lemma ScanOfNothing(s: string, n: nat, i: nat, out: string)
    requires n <= i <= |s|
    ensures Scan(s, n, i, out) == Output(out)
  {
  }

  /** One round of the loop: a character or a command. */
  method ReadToken(text: array<char>, at: nat, purged: nat, ghost full: string, ghost n: nat, ghost out: string)
    returns (i: nat, lenPurged: nat, ghost out': string)
    requires n <= |full| && at < n && Compacted(text, full, out) && purged == |out| <= at
    requires if at == 0 then full[at] == '\\' else |out| + 2 <= at
    requires Scan(full, n, at, out) != Overread
    modifies text
    ensures at < i <= |full| && lenPurged == |out'| && |out'| + 2 <= i && Compacted(text, full, out')
    ensures Scan(full, n, i, out') == Scan(full, n, at, out)
  {
    hide Scan, ScanToColon, Seek, Compacted;
    Unread(text, full, out, at);
    i := at;
    if text[i] != '\\' {
      ScanOfPlain(full, n, i, out);
      out' := out + [text[i]];
      lenPurged := Keep(text, purged, text[i], full, out);
    } else {
      i, lenPurged, out' := ReadCommand(text, i, purged, full, n, out);
    }
    i := i + 1;
  }

  /** The loop of the filter. */
  method Compact(text: array<char>, n: nat, ghost full: string) returns (lenPurged: nat, ghost out: string)
    requires 0 < n <= text.Length && full == text[..] && full[0] == '\\' && Scan(full, n, 0, "") != Overread
    modifies text
    ensures Compacted(text, full, out) && lenPurged == |out| && |out| + 2 <= |full|
    ensures Scan(full, n, 0, "") == Output(out)
  {
    hide Scan, ScanToColon, Seek, Compacted;
    ghost var s := full;
    StartCompacted(text);
    out := "";
    var i := 0;
    lenPurged := 0;
    while i < n
      invariant i <= |full| && lenPurged == |out| && (i == 0 || |out| + 2 <= i)
      invariant i == 0 ==> out == ""
      invariant Compacted(text, full, out)
      invariant Scan(s, n, i, out) == Scan(s, n, 0, "") != Overread
    {
      i, lenPurged, out := ReadToken(text, i, lenPurged, full, n, out);
    }
    ScanOfNothing(s, n, i, out);
  }

  /** A space goes behind a nonempty output. */
  method CloseWithSpace(text: array<char>, purged: nat, ghost full: string, ghost out: string) returns (newLen: nat)
    requires Compacted(text, full, out) && purged == |out| && (out == "" || |out| < |full|)
    modifies text
    ensures var all := if out == "" then "" else out + " ";
            newLen == 2 * |all| && |all| <= |full| && text[..] == all + full[|all|..]
  {
    var lenPurged := purged;
    if lenPurged > 0 {
      lenPurged := Keep(text, lenPurged, ' ', full, out);
    }
    return lenPurged * 2;
  }

  /** The text is compacted at its front; len counts bytes, two for each character. A command may end behind them. */
  method CotophaFilter(text: array<char>, len: nat) returns (changed: bool, newLen: nat)
    requires len / 2 <= text.Length
    requires len > 2 && text[0] == '\\' ==> Scan(text[..], len / 2, 0, "") != Overread
    modifies text
    ensures changed <==> len > 2 && old(text[0]) == '\\'
    ensures !changed ==> text[..] == old(text[..]) && newLen == len
    ensures changed ==>
              var out := Scan(old(text[..]), len / 2, 0, "").text;
              var all := if out == "" then "" else out + " ";
              newLen == 2 * |all| && |all| <= text.Length && text[..] == all + old(text[..])[|all|..]
    ensures changed && Scan(old(text[..])[..len / 2], len / 2, 0, "") != Overread ==> newLen <= len
  {
    if len <= 2 || text[0] != '\\' {
      return false, len;
    }
    ghost var full := text[..];
    var lenPurged;
    ghost var out;
    lenPurged, out := Compact(text, len / 2, full);
    newLen := CloseWithSpace(text, lenPurged, full, out);
    changed := true;
    if Scan(full[..len / 2], len / 2, 0, "") != Overread {
      ResultFits(full, len / 2);
    }
  }

  // ---------- what the scan means ----------

  /** A well-formed stream is covered by its own length. */
  lemma {:induction false} CoversItself(tokens: seq<Token>)
    ensures Covers(tokens, |Encode(tokens)|)
  {
    if tokens != [] {
      CodeIsLong(tokens[0]);
      CoversItself(tokens[1..]);
    }
  }

  lemma CodeIsLong(t: Token)
    ensures |Code(t)| >= 1
    ensures forall out :: |Rendered(out, t)| <= |out| + |Code(t)| - if t.Plain? then 0 else 2
  {
  }

  /** A covering stream that ends in time ends exactly at the place. */
  lemma {:induction false} CoveredLength(tokens: seq<Token>, n: int)
    requires Covers(tokens, n)
    ensures n <= |Encode(tokens)| && (n >= 0 && |Encode(tokens)| <= n ==> |Encode(tokens)| == n)
  {
    if tokens != [] {
      CoveredLength(tokens[1..], n - |Code(tokens[0])|);
    }
  }

  lemma {:induction false} RenderIsShort(out: string, tokens: seq<Token>)
    ensures |Render(out, tokens)| <= |out| + |Encode(tokens)| - if tokens == [] || tokens[0].Plain? then 0 else 2
    decreases |tokens|
  {
    if tokens != [] {
      hide Rendered, Code;
      CodeIsLong(tokens[0]);
      RenderIsShort(Rendered(out, tokens[0]), tokens[1..]);
    }
  }

  /** A stream that lies in the buffer and covers the n characters is scanned to its rendering. */
  lemma FilterRenders(s: string, n: nat, tokens: seq<Token>)
    requires n <= |s| && AllWellFormed(tokens) && HasAt(s, 0, Encode(tokens)) && Covers(tokens, n)
    ensures Scan(s, n, 0, "") == Output(Render("", tokens))
  {
    ScanOfEncode(s, n, 0, tokens, "");
  }

  /** Such a stream exists exactly when the scan stays inside the buffer. */
  lemma ReadsPastUnlessWellFormed(s: string, n: nat)
    requires n <= |s|
    ensures Scan(s, n, 0, "") != Overread
       <==> exists tokens :: AllWellFormed(tokens) && HasAt(s, 0, Encode(tokens)) && Covers(tokens, n)
  {
    hide Scan, Encode, Covers, AllWellFormed, HasAt;
    if Scan(s, n, 0, "") != Overread {
      var tokens := TokensOf(s, n, 0, "");
      assert Covers(tokens, n);
    } else if tokens :| AllWellFormed(tokens) && HasAt(s, 0, Encode(tokens)) && Covers(tokens, n) {
      ScanOfEncode(s, n, 0, tokens, "");
    }
  }

  /** In a text that is well-formed by itself nothing behind it is read, and the result fits the text. */
  lemma ResultFits(s: string, n: nat)
    requires 0 < n <= |s| && s[0] == '\\' && Scan(s[..n], n, 0, "") != Overread
    ensures Scan(s, n, 0, "") == Scan(s[..n], n, 0, "")
    ensures var out := Scan(s, n, 0, "").text; out == "" || |out| + 1 <= n
  {
    hide Scan, Render, Covers, Encode, Code, WellFormed;
    var tokens := TokensOf(s[..n], n, 0, "");
    CoveredLength(tokens, n);
    assert s[..n][..n] == s[..n];
    assert Encode(tokens) == s[..n];
    ScanOfEncode(s[..n], n, 0, tokens, "");
    ScanOfEncode(s, n, 0, tokens, "");
    FirstIsCommand(tokens);
    RenderIsShort("", tokens);
  }

  lemma FirstIsCommand(tokens: seq<Token>)
    requires AllWellFormed(tokens) && Encode(tokens) != "" && Encode(tokens)[0] == '\\'
    ensures tokens != [] && !tokens[0].Plain?
  {
    assert WellFormed(tokens[0]);
  }

  /** A text that consists of a well-formed stream that ends with it leaves the rendering. */
  lemma WholeTextRenders(tokens: seq<Token>)
    requires AllWellFormed(tokens)
    ensures Scan(Encode(tokens), |Encode(tokens)|, 0, "") == Output(Render("", tokens))
  {
    CoversItself(tokens);
    FilterRenders(Encode(tokens), |Encode(tokens)|, tokens);
  }

  /** A command whose colon never comes is read past the buffer. */
  lemma UnfinishedCommandOverreads(body: string)
    requires ':' !in body
    ensures Scan("\\" + body, |body| + 1, 0, "") == Overread
  {
    var s := "\\" + body;
    assert forall i :: 1 <= i < |s| ==> s[i] == body[i - 1];
    if |s| > 1 && s[1] == 'r' {
      if |s| > 3 {
        var k := Seek(s, 3, ':', ';');
        if k < |s| {
          NoColonAhead(s, k + 1, s[3..k]);
        }
      }
    } else if |s| > 1 {
      NoColonAhead(s, 2, "");
    }
  }

  lemma NoColonAhead(s: string, i: nat, out: string)
    requires i <= |s| && forall j :: i <= j < |s| ==> s[j] != ':'
    ensures ScanToColon(s, |s|, i, out) == Overread
  {
  }
}
