/** strReplace and strSplit (include/stringutils.cpp). */
module StringUtils {

  predicate OccursAt(s: string, pattern: string, i: nat) { i + |pattern| <= |s| && s[i..i + |pattern|] == pattern }

  predicate Contains(s: string, pattern: string) {
    exists i {:trigger OccursAt(s, pattern, i)} :: 0 <= i <= |s| && OccursAt(s, pattern, i)
  }

  /** std::string::find from a position on; -1 for npos. */
  function Find(s: string, pattern: string, from: nat): (k: int)
    requires from <= |s|
    ensures -1 <= k <= |s|
    ensures k >= 0 ==> from <= k && OccursAt(s, pattern, k) && forall i :: from <= i < k ==> !OccursAt(s, pattern, i)
    ensures k < 0 ==> forall i :: from <= i <= |s| ==> !OccursAt(s, pattern, i)
    decreases |s| - from
  {
    if OccursAt(s, pattern, from) then from
    else if from == |s| then -1
    else Find(s, pattern, from + 1)
  }

  /** The pieces between the leftmost, non-overlapping occurrences. */
  function Split(s: string, delim: string): (pieces: seq<string>)
    requires delim != ""
    ensures pieces != []
    decreases |s|
  {
    var k := Find(s, delim, 0);
    if k < 0 then [s] else [s[..k]] + Split(s[k + |delim|..], delim)
  }

  function Join(pieces: seq<string>, delim: string): string
    requires pieces != []
    decreases |pieces|
  {
    if |pieces| == 1 then pieces[0] else pieces[0] + delim + Join(pieces[1..], delim)
  }

  function Replaced(s: string, oldStr: string, newStr: string): string
    requires oldStr != ""
  {
    Join(Split(s, oldStr), newStr)
  }

  lemma JoinCons(piece: string, pieces: seq<string>, delim: string)
    requires pieces != []
    ensures Join([piece] + pieces, delim) == piece + delim + Join(pieces, delim)
  {
    assert ([piece] + pieces)[1..] == pieces;
  }

  /** Splitting loses nothing. */
  lemma {:induction false} JoinOfSplit(s: string, delim: string)
    requires delim != ""
    ensures Join(Split(s, delim), delim) == s
    decreases |s|
  {
    var k := Find(s, delim, 0);
    if k >= 0 {
      var rest := s[k + |delim|..];
      JoinOfSplit(rest, delim);
      JoinCons(s[..k], Split(rest, delim), delim);
      assert s == s[..k] + s[k..k + |delim|] + rest;
    }
  }

  lemma SliceOfTake(s: string, k: nat, i: nat, j: nat)
    requires i <= j <= k <= |s|
    ensures s[..k][i..j] == s[i..j]
  {
    forall n | 0 <= n < j - i
      ensures s[..k][i..j][n] == s[i..j][n]
    {
    }
  }

  /** No piece contains the delimiter. */
  lemma {:induction false} PiecesAreClean(s: string, delim: string)
    requires delim != ""
    ensures forall piece :: piece in Split(s, delim) ==> !Contains(piece, delim)
    decreases |s|
  {
    var k := Find(s, delim, 0);
    if k >= 0 {
      forall i | 0 <= i <= k
        ensures !OccursAt(s[..k], delim, i)
      {
        if i + |delim| <= k {
          SliceOfTake(s, k, i, i + |delim|);
          assert !OccursAt(s, delim, i);
        }
      }
      PiecesAreClean(s[k + |delim|..], delim);
    }
  }

  // ---------- single-character delimiters ----------

  lemma OccursAtChar(s: string, c: char, i: nat)
    ensures OccursAt(s, [c], i) <==> i < |s| && s[i] == c
  {
    if i < |s| {
      assert s[i..i + 1] == [s[i]];
    }
  }

  lemma NotContained(s: string, c: char)
    ensures !Contains(s, [c]) ==> c !in s
  {
    forall i | 0 <= i < |s|
      ensures s[i] == c <==> OccursAt(s, [c], i)
    {
      OccursAtChar(s, c, i);
    }
  }

  lemma FindChar(s: string, c: char)
    ensures var k := Find(s, [c], 0);
            if k < 0 then c !in s else k < |s| && s[k] == c && c !in s[..k]
  {
    forall i: nat
      ensures OccursAt(s, [c], i) <==> i < |s| && s[i] == c
    {
      OccursAtChar(s, c, i);
    }
  }

  /** With one character as the delimiter, joining clean pieces and splitting gives the pieces back. */
  lemma {:induction false} SplitOfJoin(pieces: seq<string>, c: char)
    requires pieces != [] && forall i :: 0 <= i < |pieces| ==> c !in pieces[i]
    ensures Split(Join(pieces, [c]), [c]) == pieces
    decreases |pieces|
  {
    var s := Join(pieces, [c]);
    FindChar(s, c);
    if |pieces| > 1 {
      var p, rest := pieces[0], Join(pieces[1..], [c]);
      assert s == p + [c] + rest;
      FindFirst(s, c, |p|);
      assert s[..|p|] == p && s[|p| + 1..] == rest;
      SplitOfJoin(pieces[1..], c);
    }
  }

  lemma FindFirst(s: string, c: char, k: nat)
    requires k < |s| && s[k] == c && forall i :: 0 <= i < k ==> s[i] != c
    ensures Find(s, [c], 0) == k
  {
    FindChar(s, c);
    var f := Find(s, [c], 0);
    assert forall i :: 0 <= i < f ==> s[..f][i] == s[i];
  }

  // ---------- the loops ----------

  lemma OccursInRest(front: string, rest: string, pattern: string, i: nat)
    requires |front| <= i <= |front| + |rest|
    ensures OccursAt(front + rest, pattern, i) <==> OccursAt(rest, pattern, i - |front|)
  {
    if i + |pattern| <= |front + rest| {
      assert (front + rest)[i..i + |pattern|] == rest[i - |front|..i - |front| + |pattern|];
    }
  }

  /** Looking from a position on is looking in the rest. */
  lemma FindInRest(front: string, rest: string, pattern: string)
    ensures var k := Find(front + rest, pattern, |front|);
            var j := Find(rest, pattern, 0);
            if j < 0 then k < 0 else k == |front| + j
  {
    hide OccursAt;
    var s := front + rest;
    forall i {:trigger OccursAt(s, pattern, i)} | |front| <= i <= |s|
      ensures OccursAt(s, pattern, i) <==> OccursAt(rest, pattern, i - |front|)
    {
      OccursInRest(front, rest, pattern, i);
    }
    var k, j := Find(s, pattern, |front|), Find(rest, pattern, 0);
    if j >= 0 {
      assert OccursAt(s, pattern, |front| + j);
    }
  }

  lemma ReplaceAt(done: string, rest: string, j: nat, n: nat, newStr: string)
    requires j + n <= |rest|
    ensures var str := done + rest;
            str[..|done| + j] + newStr + str[|done| + j + n..] == (done + rest[..j] + newStr) + rest[j + n..]
  {
    var str := done + rest;
    assert str[..|done| + j] == done + rest[..j];
    assert str[|done| + j + n..] == rest[j + n..];
  }

  /** One round of the loop: the text in front grows by a piece and the replacement. */
  lemma ReplaceRound(done: string, rest: string, oldStr: string, newStr: string)
    requires oldStr != "" && Find(rest, oldStr, 0) >= 0
    ensures var j := Find(rest, oldStr, 0);
            done + Replaced(rest, oldStr, newStr)
            == (done + rest[..j] + newStr) + Replaced(rest[j + |oldStr|..], oldStr, newStr)
  {
    var j := Find(rest, oldStr, 0);
    var later := Split(rest[j + |oldStr|..], oldStr);
    JoinCons(rest[..j], later, newStr);
    assert done + (rest[..j] + newStr + Join(later, newStr)) == (done + rest[..j] + newStr) + Join(later, newStr);
  }

  /** strReplace_impl: every round finds the next occurrence behind what was inserted. */
  method StrReplace(input: string, oldStr: string, newStr: string) returns (str: string)
    requires oldStr != ""
    ensures str == Replaced(input, oldStr, newStr)
  {
    hide Join, Split;
    str := input;
    var pos := 0;
    ghost var done, rest := "", input;
    assert done + rest == str;
    assert "" + Replaced(input, oldStr, newStr) == Replaced(input, oldStr, newStr);
    while true
      invariant pos == |done| && str == done + rest
      invariant Replaced(input, oldStr, newStr) == done + Replaced(rest, oldStr, newStr)
      decreases |rest|
    {
      FindInRest(done, rest, oldStr);
      var found := Find(str, oldStr, pos);
      if found < 0 {
        ReplacedNone(rest, oldStr, newStr);
        break;
      }
      ghost var j := Find(rest, oldStr, 0);
      ReplaceRound(done, rest, oldStr, newStr);
      ReplaceAt(done, rest, j, |oldStr|, newStr);
      pos := found;
      str := str[..pos] + newStr + str[pos + |oldStr|..];
      pos := pos + |newStr|;
      done, rest := done + rest[..j] + newStr, rest[j + |oldStr|..];
    }
  }

  lemma ReplacedNone(s: string, oldStr: string, newStr: string)
    requires oldStr != "" && Find(s, oldStr, 0) < 0
    ensures Replaced(s, oldStr, newStr) == s
  {
  }

  /** strSplit_impl */
  method StrSplit(s: string, delim: string) returns (tokens: seq<string>)
    requires delim != ""
    ensures tokens == Split(s, delim)
  {
    var str := s;
    tokens := [];
    while true
      invariant Split(s, delim) == tokens + Split(str, delim)
      decreases |str|
    {
      var pos := Find(str, delim, 0);
      if pos < 0 {
        break;
      }
      var item := str[..pos];
      assert tokens + ([item] + Split(str[pos + |delim|..], delim)) == tokens + [item] + Split(str[pos + |delim|..], delim);
      tokens := tokens + [item];
      str := str[pos + |delim|..];
    }
    tokens := tokens + [str];
  }
}
