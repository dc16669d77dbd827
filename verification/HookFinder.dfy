/** The hook search as the source writes it (LunaHook/hookfinder.cc): one call at a time on real arrays. */
module HookFinder {
  import opened MachineTypes
  import opened Bits
  import opened Division
  import opened HookParams
  import opened HookFinderModel
  import opened HookFinderRuns

  const MAX_STRING_SIZE := 500
  const MIN_STRING := 12

  // ---------- initrecords ----------

  /** maxRecords / 2 in C++ truncates toward zero. */
  function Half(x: int): int { if x < 0 then -(-x / 2) else x / 2 }

  function Halved(max: int, times: nat): int { if times == 0 then max else Half(Halved(max, times - 1)) }

  /** Halving again and again divides by a power of two, toward zero. */
  lemma {:induction false} HalvedIs(max: int, times: nat)
    ensures Halved(max, times) == if max < 0 then -(-max / Pow2(times)) else max / Pow2(times)
  {
    var x := if max < 0 then -max else max;
    if times == 0 {
      assert Pow2(0) == 1;
    } else {
      var p := Pow2(times - 1);
      HalvedIs(max, times - 1);
      HalfOfQuotient(x, p);
      HalfOfSigned(max < 0, x / p);
    }
  }

  lemma HalfOfSigned(negative: bool, q: int)
    requires q >= 0
    ensures Half(if negative then -q else q) == if negative then -(q / 2) else q / 2
  {
  }

  /** The sizes that are tried: the wanted one, and its halves down to the last that is not 0. */
  predicate Tried(wanted: int, times: nat) { times == 0 || Halved(wanted, times) != 0 }

  lemma {:induction false} ZeroStays(wanted: int, times: nat, later: nat)
    requires Halved(wanted, times) == 0 && times <= later
    ensures Halved(wanted, later) == 0
    decreases later
  {
    if times < later {
      ZeroStays(wanted, times, later - 1);
    }
  }

  /** allocates says which sizes can be had; a size that cannot raises std::bad_alloc. */
  method InitRecords(wanted: int, allocates: int -> bool) returns (max: int, available: int, ok: bool, ghost times: nat)
    ensures ok <==> exists k: nat :: (k == 0 || Halved(wanted, k) != 0) && allocates(Halved(wanted, k))
    ensures ok ==> max == Halved(wanted, times) && (times == 0 || max != 0) && allocates(max) && available == max
    ensures ok ==> forall k :: 0 <= k < times ==> !allocates(Halved(wanted, k))
    ensures !ok ==> max == 0
  {
    max, times := wanted, 0;
    while true
      invariant max == Halved(wanted, times) && Tried(wanted, times)
      invariant forall k :: 0 <= k < times ==> !allocates(Halved(wanted, k))
      decreases if max < 0 then -max else max
    {
      available := max;
      ok := allocates(max);
      if ok {
        break;
      }
      max, times := Half(max), times + 1;
      if max == 0 {
        break;
      }
    }
    if !ok {
      forall k: nat | Tried(wanted, k)
        ensures !allocates(Halved(wanted, k))
      {
        if times <= k {
          ZeroStays(wanted, times, k);
        }
      }
    }
  }

  // ---------- DoSend ----------

  predicate NulAt(text: seq<byte>, place: nat)
    requires place + 1 < |text|
  {
    text[place] == 0 && text[place + 1] == 0
  }

  /** The text ends at a 16-bit NUL on an even place, at the latest at MAX_STRING_SIZE. */
  function TextEnd(text: seq<byte>, from: nat): (r: nat)
    requires from % 2 == 0 && from <= MAX_STRING_SIZE && MAX_STRING_SIZE + 2 <= |text|
    ensures from <= r <= MAX_STRING_SIZE && r % 2 == 0
    ensures r < MAX_STRING_SIZE ==> NulAt(text, r)
    ensures forall j :: from <= j < r && j % 2 == 0 ==> !NulAt(text, j)
    decreases MAX_STRING_SIZE - from
  {
    if !NulAt(text, from) && from < MAX_STRING_SIZE then TextEnd(text, from + 2) else from
  }

  function Char16(low: byte, high: byte): nat { low as int + 256 * (high as int) }

  /** The sum of the 16-bit characters in front of an even place. */
  function CharSum(text: seq<byte>, end: nat): nat
    requires end % 2 == 0 && end <= |text|
  {
    if end == 0 then 0 else CharSum(text, end - 2) + Char16(text[end - 2], text[end - 1])
  }

  method MeasureText(text: seq<byte>) returns (length: nat, sum: nat)
    requires MAX_STRING_SIZE + 2 <= |text|
    ensures length == TextEnd(text, 0) && sum == CharSum(text, length)
  {
    length, sum := 0, 0;
    while (text[length] != 0 || text[length + 1] != 0) && length < MAX_STRING_SIZE
      invariant length % 2 == 0 && length <= MAX_STRING_SIZE && sum == CharSum(text, length)
      invariant TextEnd(text, length) == TextEnd(text, 0)
      decreases MAX_STRING_SIZE - length
    {
      length := length + 2;
      assert CharSum(text, length) == CharSum(text, length - 2) + Char16(text[length - 2], text[length - 1]);
      sum := sum + Char16(text[length - 2], text[length - 1]);
    }
  }

  /** Only texts of 7 to 249 characters are looked at. */
  predicate Admitted(length: nat) { MIN_STRING < length < MAX_STRING_SIZE - 1 }

  /** char is signed. */
  function CharValue(b: byte): int { if b < 0x80 then b as int else b as int - 0x100 }

  /** The slot in the top byte, the sum of the third and fourth byte below it, and the address, put over one another. */
  function Signature(i: int, text: seq<byte>, address: int): nat
    requires 4 <= |text|
  {
    var slot := (i % 0x100) * 0x100_0000_0000_0000;
    var chars := ((CharValue(text[2]) + CharValue(text[3])) % 0x1_0000) * 0x1_0000_0000_0000;
    Or(Or(slot, chars), address % UINT64_LIMIT)
  }

  /** A record of a function has its address, a record of translated code the address in the emulator. */
  function SendOf(i: int, address: int, text: seq<byte>, padding: int, jittype: JitType, emAddr: int): (send: Send)
    requires MAX_STRING_SIZE + 2 <= |text|
    ensures send.bucket < CACHE_SIZE
  {
    var length := TextEnd(text, 0);
    Send(Signature(i, text, address), CharSum(text, length) % CACHE_SIZE, jittype,
         if jittype == PC then address else emAddr, i, padding, text[..length])
  }

  // ---------- SearchForHooks_Return ----------

  datatype Found = Found(hp: HookParam, text: seq<byte>)

  predicate Reports(r: Record) { if r.jittype == PC then r.address != 0 else r.emAddr != 0 }

  function HookOf(r: Record, codepage: int): Found {
    var hp := ZERO.(codepage := codepage, jittype := r.jittype, padding := r.padding, typ := {CODEC_UTF16, USING_STRING});
    Found(if r.jittype == PC then hp.(offset := r.offset, address := r.address)
          else hp.(emuAddr := r.emAddr, argidx := r.argidx, typ := hp.typ + {BREAK_POINT}), r.text)
  }

  function Reported(records: seq<Record>, codepage: int): seq<Found> {
    if records == [] then []
    else
      var last := records[|records| - 1];
      Reported(records[..|records| - 1], codepage) + if Reports(last) then [HookOf(last, codepage)] else []
  }

  /** The call stored a record that is reported. */
  predicate Tells(t: State, c: int) { c in t.calls && t.calls[c].at.Stored? && Reports(Fill(EMPTY, t.calls[c].send)) }

  /** The calls, in the order of their slots below m, are those whose hooks are found, one for one. */
  ghost predicate ReportOf(t: State, codepage: int, m: nat, order: seq<int>, found: seq<Found>) {
    && |order| == |found|
    && (forall k :: 0 <= k < |order| ==>
          Tells(t, order[k]) && t.calls[order[k]].at.n < m && found[k] == HookOf(Fill(EMPTY, t.calls[order[k]].send), codepage))
    && (forall j, k :: 0 <= j < k < |order| ==> t.calls[order[j]].at.n < t.calls[order[k]].at.n)
    && (forall c :: Tells(t, c) && t.calls[c].at.n < m ==> c in order)
  }

  /** One more slot. */
  lemma ReportOfMore(t: State, codepage: int, m: nat, order: seq<int>, found: seq<Found>, c: int)
    requires StoredApart(t) && ReportOf(t, codepage, m, order, found) && m < |t.shared.records|
    requires StoredAt(t, c, m) && Reports(t.shared.records[m])
    ensures ReportOf(t, codepage, m + 1, order + [c], found + [HookOf(t.shared.records[m], codepage)])
  {
    forall d | Tells(t, d) && t.calls[d].at.n < m + 1
      ensures d in order + [c]
    {
      if t.calls[d].at.n == m {
        assert Holds(t, d, m) && Holds(t, c, m);
      }
    }
  }

  lemma NothingMore(t: State, codepage: int, m: nat, order: seq<int>, found: seq<Found>)
    requires StoredApart(t) && ReportOf(t, codepage, m, order, found) && m < |t.shared.records|
    requires !Reports(t.shared.records[m])
    ensures ReportOf(t, codepage, m + 1, order, found)
  {
    forall d | Tells(t, d)
      ensures t.calls[d].at.n != m
    {
      assert StoredAt(t, d, t.calls[d].at.n);
    }
  }

  lemma {:induction false} ReportedUpTo(t: State, codepage: int, m: nat) returns (order: seq<int>)
    requires StoredApart(t) && m <= |t.shared.records|
    ensures ReportOf(t, codepage, m, order, Reported(t.shared.records[..m], codepage))
    decreases m
  {
    if m == 0 {
      order := [];
      forall c | Tells(t, c)
        ensures t.calls[c].at.n >= 0
      {
        assert StoredAt(t, c, t.calls[c].at.n);
      }
    } else {
      var records := t.shared.records;
      assert records[..m][..m - 1] == records[..m - 1];
      order := ReportedUpTo(t, codepage, m - 1);
      var found := Reported(records[..m - 1], codepage);
      if Reports(records[m - 1]) {
        assert records[m - 1] != EMPTY;
        var c :| StoredAt(t, c, m - 1);
        ReportOfMore(t, codepage, m - 1, order, found, c);
        order := order + [c];
      } else {
        NothingMore(t, codepage, m - 1, order, found);
        assert found + [] == found;
      }
    }
  }

  /**
   * After any interleaving, the hooks of the calls that stored a record are reported, once for each call and in
   * the order of their slots, and no other.
   */
  lemma ReportsWhatWasStored(s: State, actions: seq<Action>, codepage: int) returns (order: seq<int>)
    requires Initial(s) && Allowed(s, actions) && DrawSteps(s, actions) < INT_LIMIT
    ensures var t := Run(s, actions);
            ReportOf(t, codepage, |t.shared.records|, order, Reported(t.shared.records, codepage))
            && forall c :: Tells(t, c) ==> c in order
  {
    EveryRunStoresApart(s, actions);
    var t := Run(s, actions);
    assert t.shared.records[..|t.shared.records|] == t.shared.records;
    order := ReportedUpTo(t, codepage, |t.shared.records|);
    forall c | Tells(t, c)
      ensures t.calls[c].at.n < |t.shared.records|
    {
      assert StoredAt(t, c, t.calls[c].at.n);
    }
  }

  /** The globals of the search. */
  class HookSearch {
    var maxRecords: int
    var recordsAvailable: int
    var records: array<Record>
    var signatureCache: array<int>
    var sumCache: array<int>
    var warnings: nat
    var nextMaxRecords: int

    ghost predicate Valid()
      reads this
    {
      && signatureCache.Length == CACHE_SIZE && sumCache.Length == CACHE_SIZE && signatureCache != sumCache
      && (records.Length == maxRecords || records.Length == 0)
    }

    ghost function Globals(): (sh: Shared)
      reads this, records, signatureCache, sumCache
      requires Valid()
      ensures Sized(sh)
    {
      Shared(recordsAvailable, signatureCache[..], sumCache[..], records[..], warnings)
    }

    /** A search with room for max records begins. */
    constructor (max: nat)
      ensures Valid() && records.Length == maxRecords == max && fresh(records) && fresh(signatureCache) && fresh(sumCache)
      ensures Globals() == Shared(max, seq(CACHE_SIZE, i => 0), seq(CACHE_SIZE, i => 0), seq(max, i => EMPTY), 0)
    {
      maxRecords, recordsAvailable, warnings, nextMaxRecords := max, max, 0, max;
      records := new Record[max](i => EMPTY);
      signatureCache := new int[CACHE_SIZE](i => 0);
      sumCache := new int[CACHE_SIZE](i => 0);
    }

    /** Texts seen before and texts of crowded buckets go no further. */
    method Sift(send: Send) returns (passes: bool)
      requires Valid() && send.bucket < CACHE_SIZE
      modifies signatureCache, sumCache
      ensures passes ==> Complete(old(Globals()), send, Started) == Complete(Globals(), send, Counted)
      ensures !passes ==> Complete(old(Globals()), send, Started) == Globals()
    {
      ghost var before := Globals();
      var slot := send.signature % CACHE_SIZE;
      if signatureCache[slot] == send.signature {
        return false;
      }
      signatureCache[slot] := send.signature;
      ghost var marked := Globals();
      assert Complete(before, send, Started) == Complete(marked, send, Signed) by {
        assert Advance(before, send, Started) == (before, Unseen);
        assert Advance(before, send, Unseen) == (marked, Signed);
      }
      sumCache[send.bucket] := Signed32(sumCache[send.bucket] + 1);
      passes := sumCache[send.bucket] <= BUCKET_LIMIT;
      assert Advance(marked, send, Signed) == (Globals(), if passes then Counted else Filtered);
    }

    method Write(n: nat, send: Send)
      requires n < records.Length
      modifies records
      ensures records[..] == old(records[..])[n := Fill(old(records[n]), send)]
    {
      records[n] := records[n].(jittype := send.jittype, padding := send.padding);
      if send.jittype == PC {
        records[n] := records[n].(address := send.address, offset := send.i * 8);
      } else {
        records[n] := records[n].(emAddr := send.address, argidx := send.i);
      }
      records[n] := records[n].(text := send.text);
    }

    /** An index is drawn, and the record is written if there is one with that index. */
    method Store(send: Send)
      requires Valid() && records.Length == maxRecords && send.bucket < CACHE_SIZE
      modifies `recordsAvailable, `warnings, `nextMaxRecords, records
      ensures Globals() == Complete(old(Globals()), send, Counted)
      ensures nextMaxRecords == if warnings > old(warnings) then 2 * maxRecords else old(nextMaxRecords)
    {
      recordsAvailable := Signed32(recordsAvailable - 1);
      var n := Signed32(maxRecords - recordsAvailable);
      ghost var drawn := Globals();
      assert Complete(old(Globals()), send, Counted) == Complete(drawn, send, Drew(n)) by {
        assert Advance(old(Globals()), send, Counted) == (drawn, Drew(n));
      }
      if 0 <= n < maxRecords {
        Write(n, send);
      }
      if n == maxRecords {
        nextMaxRecords := maxRecords * 2;
        warnings := warnings + 1;
      }
      assert Advance(drawn, send, Drew(n)).0 == Globals();
    }

    /** text is what lies at the string; the readability checks come out as readable. */
    method DoSend(i: int, address: int, text: seq<byte>, padding: int, jittype: JitType, emAddr: int, readable: bool)
      requires Valid() && records.Length == maxRecords && MAX_STRING_SIZE + 2 <= |text|
      modifies `recordsAvailable, `warnings, `nextMaxRecords, records, signatureCache, sumCache
      ensures Valid()
      ensures Globals() == if readable && Admitted(TextEnd(text, 0))
                           then Complete(old(Globals()), SendOf(i, address, text, padding, jittype, emAddr), Started)
                           else old(Globals())
      ensures nextMaxRecords == if warnings > old(warnings) then 2 * maxRecords else old(nextMaxRecords)
    {
      hide Signature;
      if !readable {
        return;
      }
      var length, sum := MeasureText(text);
      if Admitted(length) {
        var signature := Signature(i, text, address);
        var target := if jittype == PC then address else emAddr;
        var send := Send(signature, sum % CACHE_SIZE, jittype, target, i, padding, text[..length]);
        var passes := Sift(send);
        if passes {
          Store(send);
        }
      }
    }

    method Report(codepage: int) returns (found: seq<Found>)
      requires Valid() && records.Length == maxRecords
      modifies `records, signatureCache, sumCache
      ensures Valid() && found == Reported(old(records[..]), codepage)
      ensures records.Length == 0
      ensures forall k :: 0 <= k < CACHE_SIZE ==> signatureCache[k] == 0 && sumCache[k] == 0
    {
      found := [];
      for i := 0 to maxRecords
        invariant found == Reported(records[..i], codepage)
      {
        assert records[..i + 1][..i] == records[..i];
        if Reports(records[i]) {
          found := found + [HookOf(records[i], codepage)];
        }
      }
      assert records[..maxRecords] == records[..];
      records := new Record[0];
      for i := 0 to CACHE_SIZE
        invariant records.Length == 0
        invariant forall k :: 0 <= k < i ==> signatureCache[k] == 0 && sumCache[k] == 0
      {
        signatureCache[i], sumCache[i] := 0, 0;
      }
    }
  }

  // ---------- the failed hooks are taken out again ----------

  /** The addresses from a place on whose place is not listed. */
  function Kept(addresses: seq<int>, failed: seq<nat>, from: nat): seq<int>
    requires from <= |addresses|
    decreases |addresses| - from
  {
    if from == |addresses| then []
    else (if from in failed then [] else [addresses[from]]) + Kept(addresses, failed, from + 1)
  }

  predicate Ascending(failed: seq<nat>, size: nat) {
    (forall j, k :: 0 <= j < k < |failed| ==> failed[j] < failed[k]) && (forall j :: 0 <= j < |failed| ==> failed[j] < size)
  }

  /** A stretch without listed places is kept whole. */
  lemma {:induction false} KeepsStretch(addresses: seq<int>, failed: seq<nat>, from: nat, end: nat)
    requires from <= end <= |addresses| && forall k :: from <= k < end ==> k !in failed
    ensures Kept(addresses, failed, from) == addresses[from..end] + Kept(addresses, failed, end)
    decreases end - from
  {
    if from < end {
      var first, middle, rest := [addresses[from]], addresses[from + 1..end], Kept(addresses, failed, end);
      KeepsStretch(addresses, failed, from + 1, end);
      assert from !in failed;
      assert Kept(addresses, failed, from) == first + (middle + rest);
      assert first + (middle + rest) == (first + middle) + rest;
      assert addresses[from..end] == first + middle;
    }
  }

  lemma EraseAt(addresses: seq<int>, reverse: nat, cut: nat, tail: seq<int>)
    requires reverse < cut <= |addresses|
    ensures var r := addresses[..cut] + tail;
            r[..reverse] + r[reverse + 1..] == addresses[..reverse] + (addresses[reverse + 1..cut] + tail)
  {
    var r := addresses[..cut] + tail;
    assert r[..reverse] == addresses[..reverse];
    assert r[reverse + 1..] == addresses[reverse + 1..cut] + tail;
  }

  /** A listed place is skipped, and so is the stretch up to the next listed one kept. */
  lemma KeptAt(addresses: seq<int>, failed: seq<nat>, reverse: nat, cut: nat)
    requires reverse < cut <= |addresses| && reverse in failed && forall k :: reverse < k < cut ==> k !in failed
    ensures Kept(addresses, failed, reverse) == addresses[reverse + 1..cut] + Kept(addresses, failed, cut)
  {
    KeepsStretch(addresses, failed, reverse + 1, cut);
    assert [] + Kept(addresses, failed, reverse + 1) == Kept(addresses, failed, reverse + 1);
  }

  /** Nothing is listed between two neighbours of the list. */
  lemma Neighbours(failed: seq<nat>, size: nat, i: nat, cut: nat)
    requires Ascending(failed, size) && i < |failed| && cut == if i + 1 == |failed| then size else failed[i + 1]
    ensures failed[i] < cut <= size && forall k :: failed[i] < k < cut ==> k !in failed
  {
  }

  /** Erasing from the back does not move the places still to be erased. */
  method EraseFailed(addresses: seq<int>, failed: seq<nat>) returns (r: seq<int>)
    requires Ascending(failed, |addresses|)
    ensures r == Kept(addresses, failed, 0)
  {
    hide Kept;
    r := addresses;
    ghost var cut := |addresses|;
    assert Kept(addresses, failed, cut) == [] by { KeptNothing(addresses, failed); }
    for i := 0 to |failed|
      invariant cut == if i == 0 then |addresses| else failed[|failed| - i]
      invariant cut <= |addresses| && r == addresses[..cut] + Kept(addresses, failed, cut)
    {
      var reverse := failed[|failed| - 1 - i];
      Neighbours(failed, |addresses|, |failed| - 1 - i, cut);
      EraseAt(addresses, reverse, cut, Kept(addresses, failed, cut));
      KeptAt(addresses, failed, reverse, cut);
      r := r[..reverse] + r[reverse + 1..];
      cut := reverse;
    }
    assert forall k :: 0 <= k < cut ==> k !in failed;
    KeepsStretch(addresses, failed, 0, cut);
  }

  /** The addresses whose hook could be created, in order. */
  function Created(addresses: seq<int>, creates: nat -> bool, from: nat): seq<int>
    requires from <= |addresses|
    decreases |addresses| - from
  {
    if from == |addresses| then []
    else if creates(from) then [addresses[from]] + Created(addresses, creates, from + 1)
    else Created(addresses, creates, from + 1)
  }

  lemma {:induction false} KeptIsCreated(addresses: seq<int>, creates: nat -> bool, failed: seq<nat>, from: nat)
    requires from <= |addresses| && forall k: nat :: k < |addresses| ==> (k in failed <==> !creates(k))
    ensures Kept(addresses, failed, from) == Created(addresses, creates, from)
    decreases |addresses| - from
  {
    if from < |addresses| {
      KeptIsCreated(addresses, creates, failed, from + 1);
      assert from in failed <==> !creates(from);
      assert [] + Kept(addresses, failed, from + 1) == Kept(addresses, failed, from + 1);
    }
  }

  /** The loop that creates the hooks lists the places where it failed, and their addresses go. */
  method CreateHooks(addresses: seq<int>, creates: nat -> bool) returns (left: seq<int>)
    ensures left == Created(addresses, creates, 0)
  {
    var failed: seq<nat> := [];
    for i := 0 to |addresses|
      invariant Ascending(failed, i)
      invariant forall k: nat :: k < i ==> (k in failed <==> !creates(k))
    {
      if !creates(i) {
        failed := failed + [i];
      }
    }
    left := EraseFailed(addresses, failed);
    KeptIsCreated(addresses, creates, failed, 0);
  }

  lemma KeptNothing(addresses: seq<int>, failed: seq<nat>)
    ensures Kept(addresses, failed, |addresses|) == []
  {
  }
}
