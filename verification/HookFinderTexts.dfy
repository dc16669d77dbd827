/** Which texts a hook search takes for the same, and what it stores and reports of the others. */
module HookFinderTexts {
  import opened MachineTypes
  import opened Bits
  import opened HookParams
  import opened HookFinderModel
  import opened HookFinder

  // ---------- texts ----------

  /** The bytes begin with these 16-bit characters, the lower byte first, none of them NUL. */
  predicate Begins(text: seq<byte>, chars: seq<nat>) {
    && 2 * |chars| <= |text|
    && forall k :: 0 <= k < |chars| ==> chars[k] != 0 && text[2 * k] as nat + 256 * (text[2 * k + 1] as nat) == chars[k]
  }

  /** They are those characters and a NUL. */
  predicate IsText(text: seq<byte>, chars: seq<nat>) {
    2 * |chars| + 2 <= |text| && Begins(text, chars) && text[2 * |chars|] == 0 && text[2 * |chars| + 1] == 0
  }

  function Sum(chars: seq<nat>): nat { if chars == [] then 0 else Sum(chars[..|chars| - 1]) + chars[|chars| - 1] }

  lemma {:induction false} EndIs(text: seq<byte>, chars: seq<nat>, k: nat)
    requires MAX_STRING_SIZE + 2 <= |text| && Begins(text, chars) && k <= |chars| && k <= 250
    requires |chars| < 250 ==> IsText(text, chars)
    ensures TextEnd(text, 2 * k) == if |chars| < 250 then 2 * |chars| else MAX_STRING_SIZE
    decreases 250 - k
  {
    if k < |chars| && k < 250 {
      assert chars[k] != 0 && text[2 * k] as nat + 256 * (text[2 * k + 1] as nat) == chars[k];
      assert !NulAt(text, 2 * k);
      EndIs(text, chars, k + 1);
    }
  }

  lemma {:induction false} SumIs(text: seq<byte>, chars: seq<nat>)
    requires Begins(text, chars)
    ensures CharSum(text, 2 * |chars|) == Sum(chars)
    decreases |chars|
  {
    if chars != [] {
      var n := |chars| - 1;
      SumIs(text, chars[..n]);
      assert text[2 * n] as nat + 256 * (text[2 * n + 1] as nat) == chars[n];
      assert CharSum(text, 2 * n + 2) == CharSum(text, 2 * n) + Char16(text[2 * n], text[2 * n + 1]);
    }
  }

  /** A UTF-16 text is looked at exactly when it has 7 to 249 characters; what is stored of it are these. */
  lemma TextIsMeasured(text: seq<byte>, chars: seq<nat>)
    requires MAX_STRING_SIZE + 2 <= |text| && Begins(text, chars) && (|chars| < 250 ==> IsText(text, chars))
    ensures Admitted(TextEnd(text, 0)) <==> 7 <= |chars| <= 249
    ensures |chars| <= 249 ==> TextEnd(text, 0) == 2 * |chars| && CharSum(text, TextEnd(text, 0)) == Sum(chars)
  {
    EndIs(text, chars, 0);
    SumIs(text, chars);
  }

  // ---------- signatures ----------

  /** Addresses of a process lie below this. */
  const ADDRESS_LIMIT := 0x1_0000_0000_0000

  /** The third and the fourth byte of a text, added as signed characters. */
  function PairSum(text: seq<byte>): (r: int)
    requires 4 <= |text|
    ensures -256 <= r <= 254
  {
    var low, high := text[2] as int, text[3] as int;
    low + high - (if low >= 128 then 256 else 0) - (if high >= 128 then 256 else 0)
  }

  /** A negative sum covers the slot with ones. */
  function SlotByte(i: int, sum: int): (r: nat)
    ensures r < 256
  {
    if sum < 0 then 255 else i % 256
  }

  lemma Powers()
    ensures Pow2(8) == 256 && Pow2(48) == ADDRESS_LIMIT && Pow2(56) == 256 * ADDRESS_LIMIT
  {
    assert Pow2(8) == 256;
    assert Pow2(16) == 0x1_0000;
    assert Pow2(24) == 0x100_0000;
    assert Pow2(32) == 0x1_0000_0000;
    assert Pow2(40) == 0x100_0000_0000;
  }

  lemma OrAbovePlace(x: nat, y: nat, low: nat, k: nat, p: nat)
    requires Pow2(k) == p && low < p
    ensures Or(x * p, y * p + low) == Or(x, y) * p + low
  {
    hide Or, Pow2;
    OrAbove(x, y, low, k);
  }

  /** The two upper bytes: a sign in the upper one covers the slot. */
  lemma UpperBytes(slot: nat, sum: int)
    requires slot < 256 && -256 <= sum <= 254
    ensures Or(slot * 256, sum % 0x1_0000) == (if sum < 0 then 255 else slot) * 256 + sum % 256
  {
    hide Or, Pow2;
    if sum < 0 {
      SignAboveByte(slot, sum + 256);
    } else {
      NothingAboveByte(slot, sum);
    }
  }

  lemma SignAboveByte(slot: nat, low: nat)
    requires slot < 256 && low < 256
    ensures Or(slot * 256, 255 * 256 + low) == 255 * 256 + low
  {
    Powers();
    OrOfOnes(slot, 8);
    hide Or, Pow2;
    OrAbovePlace(slot, 255, low, 8, 256);
  }

  lemma NothingAboveByte(slot: nat, low: nat)
    requires low < 256
    ensures Or(slot * 256, low) == slot * 256 + low
  {
    Powers();
    OrOfZero(slot);
    hide Or, Pow2;
    OrAbovePlace(slot, 0, low, 8, 256);
  }

  lemma UpperAndAddress(slot: nat, chars: nat, upper: nat, address: nat)
    requires Or(slot * 256, chars) == upper && address < ADDRESS_LIMIT
    ensures Or(Or(slot * 0x100_0000_0000_0000, chars * ADDRESS_LIMIT), address) == upper * ADDRESS_LIMIT + address
  {
    Powers();
    OrOfZero(upper);
    hide Or, Pow2;
    OrAbovePlace(slot * 256, chars, 0, 48, ADDRESS_LIMIT);
    OrAbovePlace(upper, 0, address, 48, ADDRESS_LIMIT);
  }

  lemma SignatureIs(i: int, text: seq<byte>, address: int)
    requires 4 <= |text| && 0 <= address < ADDRESS_LIMIT
    ensures Signature(i, text, address)
         == (SlotByte(i, PairSum(text)) * 256 + PairSum(text) % 256) * ADDRESS_LIMIT + address
  {
    hide Or, Pow2;
    var sum := PairSum(text);
    assert CharValue(text[2]) + CharValue(text[3]) == sum;
    UpperBytes(i % 256, sum);
    UpperAndAddress(i % 256, sum % 0x1_0000, SlotByte(i, sum) * 256 + sum % 256, address);
  }

  /**
   * Two texts are taken for the same exactly when address and slot agree and so do the pair sums; with a
   * negative sum, whose sign covers the slot, any slot counts as -1 and sums that differ by 256 agree.
   */
  lemma SignaturesTell(i: int, text: seq<byte>, address: int, j: int, other: seq<byte>, place: int)
    requires 4 <= |text| && 4 <= |other| && 0 <= address < ADDRESS_LIMIT && 0 <= place < ADDRESS_LIMIT
    requires -128 <= i < 128 && -128 <= j < 128
    ensures var s, t := PairSum(text), PairSum(other);
            Signature(i, text, address) == Signature(j, other, place)
            <==> && address == place && (s == t || s == t - 256 || s == t + 256)
                 && (if s < 0 then -1 else i) == (if t < 0 then -1 else j)
  {
    hide Signature;
    var s, t := PairSum(text), PairSum(other);
    SignatureIs(i, text, address);
    SignatureIs(j, other, place);
    var u, v := SlotByte(i, s) * 256 + s % 256, SlotByte(j, t) * 256 + t % 256;
    assert u * ADDRESS_LIMIT + address == v * ADDRESS_LIMIT + place <==> u == v && address == place;
    assert u == v <==> SlotByte(i, s) == SlotByte(j, t) && s % 256 == t % 256;
    SameByte(i, s, j, t);
  }

  lemma SameByte(i: int, s: int, j: int, t: int)
    requires -128 <= i < 128 && -128 <= j < 128 && -256 <= s <= 254 && -256 <= t <= 254
    ensures s % 256 == t % 256 <==> s == t || s == t - 256 || s == t + 256 || s == t - 512 || s == t + 512
    ensures SlotByte(i, s) == SlotByte(j, t) <==> (if s < 0 then -1 else i) == (if t < 0 then -1 else j)
  {
  }

  /** Texts with the bytes 0xFF 0x00 in their second place are the same in every slot. */
  lemma SlotsAreConfused(i: int, j: int, text: seq<byte>, address: int)
    requires 4 <= |text| && text[2] == 0xFF && text[3] == 0 && 0 <= address < ADDRESS_LIMIT
    requires -128 <= i < 128 && -128 <= j < 128
    ensures Signature(i, text, address) == Signature(j, text, address)
  {
    hide Signature;
    SignaturesTell(i, text, address, j, text, address);
  }

  /** For ASCII pairs, slot, pair sum and address decide. */
  lemma AsciiSignaturesTell(i: int, text: seq<byte>, address: int, j: int, other: seq<byte>, place: int)
    requires 4 <= |text| && 4 <= |other| && 0 <= address < ADDRESS_LIMIT && 0 <= place < ADDRESS_LIMIT
    requires -128 <= i < 128 && -128 <= j < 128
    requires text[2] < 0x80 && text[3] < 0x80 && other[2] < 0x80 && other[3] < 0x80
    ensures Signature(i, text, address) == Signature(j, other, place)
       <==> i == j && address == place && text[2] as int + text[3] as int == other[2] as int + other[3] as int
  {
    hide Signature;
    SignaturesTell(i, text, address, j, other, place);
  }

  // ---------- what a call does ----------

  /** A function's record has address and stack offset, a record of translated code emulator address and argument. */
  function RecordOf(send: Send): Record {
    if send.jittype == PC then Record(PC, send.address, 0, 0, send.padding, 8 * send.i, send.text)
    else Record(send.jittype, 0, send.address, send.i, send.padding, 0, send.text)
  }

  /** The signature stands in the cache. */
  predicate Seen(sh: Shared, send: Send)
    requires Ready(sh, send)
  {
    sh.signatures[send.signature % 749993] == send.signature
  }

  /** The counters are far from wrapping, and the record to be drawn next is empty. */
  predicate Calm(sh: Shared, send: Send)
    requires Ready(sh, send)
  {
    && 0 <= sh.sums[send.bucket] < INT_LIMIT - 1
    && |sh.records| < INT_LIMIT && |sh.records| - INT_LIMIT + 1 < sh.available <= |sh.records|
    && var n := |sh.records| - sh.available + 1; n < |sh.records| ==> sh.records[n] == EMPTY
  }

  /**
   * A text seen last in its cache place changes nothing. Any other takes the place and is counted; the first 25
   * of a bucket draw the next record, which is filled while there is one, and the first to find none warns.
   */
  lemma CallIs(sh: Shared, send: Send)
    requires Ready(sh, send) && Calm(sh, send)
    ensures Seen(sh, send) ==> Complete(sh, send, Started) == sh
    ensures !Seen(sh, send) ==> (
      var max, sum := |sh.records|, sh.sums[send.bucket] + 1;
      var counted := sh.(signatures := sh.signatures[send.signature % 749993 := send.signature],
                         sums := sh.sums[send.bucket := sum]);
      var n := max - sh.available + 1;
      Complete(sh, send, Started) ==
        if sum > 25 then counted
        else if n < max then counted.(available := sh.available - 1, records := sh.records[n := RecordOf(send)])
        else counted.(available := sh.available - 1, warnings := sh.warnings + if n == max then 1 else 0))
  {
    if !Seen(sh, send) {
      var marked := sh.(signatures := sh.signatures[send.signature % 749993 := send.signature]);
      assert Advance(sh, send, Started) == (sh, Unseen);
      assert Advance(sh, send, Unseen) == (marked, Signed);
      assert Complete(sh, send, Started) == Complete(marked, send, Signed);
      FromSigned(marked, send);
    }
  }

  lemma FromSigned(sh: Shared, send: Send)
    requires Ready(sh, send) && Calm(sh, send)
    ensures (
      var max, sum := |sh.records|, sh.sums[send.bucket] + 1;
      var counted := sh.(sums := sh.sums[send.bucket := sum]);
      var n := max - sh.available + 1;
      Complete(sh, send, Signed) ==
        if sum > 25 then counted
        else if n < max then counted.(available := sh.available - 1, records := sh.records[n := RecordOf(send)])
        else counted.(available := sh.available - 1, warnings := sh.warnings + if n == max then 1 else 0))
  {
    var sum, n := sh.sums[send.bucket] + 1, |sh.records| - sh.available + 1;
    var counted := sh.(sums := sh.sums[send.bucket := sum]);
    var drawn := counted.(available := sh.available - 1);
    assert Advance(sh, send, Signed) == (counted, if sum > 25 then Filtered else Counted);
    if sum <= 25 {
      assert Advance(counted, send, Counted) == (drawn, Drew(n));
      assert Fill(EMPTY, send) == RecordOf(send);
    }
  }

  /** A second call with the signature of one that has run changes nothing. */
  lemma SameSignatureIsDropped(sh: Shared, send: Send, again: Send)
    requires Ready(sh, send) && Ready(sh, again) && again.signature == send.signature
    ensures var r := Complete(sh, send, Started); Complete(r, again, Started) == r
  {
    assert Complete(sh, send, Started).signatures[send.signature % 749993] == send.signature by {
      SignatureStays(sh, send);
    }
  }

  lemma SignatureStays(sh: Shared, send: Send)
    requires Ready(sh, send)
    ensures Complete(sh, send, Started).signatures[send.signature % 749993] == send.signature
  {
    if !Seen(sh, send) {
      var marked := Advance(sh, send, Unseen).0;
      assert Complete(sh, send, Started) == Complete(marked, send, Signed);
      CachesStay(marked, send, Signed);
    }
  }

  lemma {:induction false} CachesStay(sh: Shared, send: Send, at: Stage)
    requires Ready(sh, send) && at != Unseen && at != Started
    ensures Complete(sh, send, at).signatures == sh.signatures
    decreases Rank(at)
  {
    if Rank(at) > 0 {
      var next := Advance(sh, send, at);
      CachesStay(next.0, send, next.1);
    }
  }

  // ---------- a fresh search ----------

  /** initrecords has just run, and the caches are cleared. */
  predicate Fresh(sh: Shared) {
    && Sized(sh) && sh.available == |sh.records| < INT_LIMIT && sh.warnings == 0
    && (forall k :: 0 <= k < |sh.signatures| ==> sh.signatures[k] == 0)
    && (forall k :: 0 <= k < |sh.sums| ==> sh.sums[k] == 0)
    && (forall k :: 0 <= k < |sh.records| ==> sh.records[k] == EMPTY)
  }

  lemma FreshIsInitial(max: nat)
    requires max < INT_LIMIT
    ensures var sh := Shared(max, seq(CACHE_SIZE, i => 0), seq(CACHE_SIZE, i => 0), seq(max, i => EMPTY), 0);
            Fresh(sh) && Initial(State(sh, map[]))
  {
  }

  /** What is reported of a text: a UTF-16 string hook where it was found. */
  function FoundAt(i: int, address: int, text: seq<byte>, padding: int, jittype: JitType, emAddr: int, codepage: int): Found {
    if jittype == PC then
      Found(ZERO.(codepage := codepage, padding := padding, typ := {USING_STRING, CODEC_UTF16}, address := address,
                  offset := 8 * i), text)
    else
      Found(ZERO.(codepage := codepage, padding := padding, typ := {USING_STRING, CODEC_UTF16, BREAK_POINT},
                  jittype := jittype, emuAddr := emAddr, argidx := i), text)
  }

  lemma HookIsFoundAt(send: Send, codepage: int)
    ensures HookOf(RecordOf(send), codepage)
         == FoundAt(send.i, send.address, send.text, send.padding, send.jittype, send.address, codepage)
  {
    assert {CODEC_UTF16, USING_STRING} + {BREAK_POINT} == {USING_STRING, CODEC_UTF16, BREAK_POINT};
  }

  /** A text of 7 to 249 characters that comes first in a search is stored in record 1, and alone reported. */
  lemma FirstTextIsFound(sh: Shared, i: int, address: int, text: seq<byte>, padding: int, jittype: JitType, emAddr: int,
      codepage: int, chars: seq<nat>)
    requires Fresh(sh) && 2 <= |sh.records| && MAX_STRING_SIZE + 2 <= |text| && IsText(text, chars) && 7 <= |chars| <= 249
    requires 0 < address < UINT64_LIMIT && (jittype != PC ==> emAddr != 0)
    ensures var send := SendOf(i, address, text, padding, jittype, emAddr);
            var r := Complete(sh, send, Started);
            && Admitted(TextEnd(text, 0)) && r.available == sh.available - 1 && r.warnings == 0
            && r.records == sh.records[1 := RecordOf(send)] && r.sums == sh.sums[Sum(chars) % 749993 := 1]
            && Reported(r.records, codepage) == [FoundAt(i, address, text[..2 * |chars|], padding, jittype, emAddr, codepage)]
  {
    var send := SendOf(i, address, text, padding, jittype, emAddr);
    assert send.signature != 0 by { SignatureIsNotZero(i, text, address); }
    HookIsFoundAt(send, codepage);
    TextIsMeasured(text, chars);
    hide Signature, TextEnd, Complete, CharSum, Sum, Begins;
    CallIs(sh, send);
    assert Complete(sh, send, Started).records == sh.records[1 := RecordOf(send)];
    OneIsReported(sh.records, RecordOf(send), codepage);
  }

  lemma SignatureIsNotZero(i: int, text: seq<byte>, address: int)
    requires 4 <= |text| && 0 < address < UINT64_LIMIT
    ensures Signature(i, text, address) != 0
  {
    hide Or;
    var slot := (i % 0x100) * 0x100_0000_0000_0000;
    var chars := ((CharValue(text[2]) + CharValue(text[3])) % 0x1_0000) * 0x1_0000_0000_0000;
    OrIsAtLeast(Or(slot, chars), address % UINT64_LIMIT);
  }

  lemma {:induction false} NothingIsReported(records: seq<Record>, codepage: int)
    requires forall k :: 0 <= k < |records| ==> records[k] == EMPTY
    ensures Reported(records, codepage) == []
    decreases |records|
  {
    if records != [] {
      NothingIsReported(records[..|records| - 1], codepage);
    }
  }

  lemma {:induction false} OneIsReported(records: seq<Record>, record: Record, codepage: int)
    requires 2 <= |records| && Reports(record) && forall k :: 0 <= k < |records| ==> records[k] == EMPTY
    ensures Reported(records[1 := record], codepage) == [HookOf(record, codepage)]
    decreases |records|
  {
    var all, n := records[1 := record], |records| - 1;
    if n == 1 {
      assert all[..n] == [EMPTY];
      NothingIsReported([EMPTY], codepage);
    } else {
      assert all[..n] == records[..n][1 := record];
      OneIsReported(records[..n], record, codepage);
    }
  }

  /** A second text of the same slot, address and pair adds nothing. */
  lemma SameTextIsDropped(sh: Shared, i: int, address: int, text: seq<byte>, padding: int, jittype: JitType, emAddr: int,
      other: seq<byte>, padding': int, jittype': JitType, emAddr': int)
    requires Sized(sh) && MAX_STRING_SIZE + 2 <= |text| && MAX_STRING_SIZE + 2 <= |other|
    requires text[2] == other[2] && text[3] == other[3]
    ensures var r := Complete(sh, SendOf(i, address, text, padding, jittype, emAddr), Started);
            Complete(r, SendOf(i, address, other, padding', jittype', emAddr'), Started) == r
  {
    hide Complete;
    SameSignatureIsDropped(sh, SendOf(i, address, text, padding, jittype, emAddr),
                           SendOf(i, address, other, padding', jittype', emAddr'));
  }

  /** A second text with another ASCII pair sum, slot or address is stored in record 2. */
  lemma OtherTextIsStored(sh: Shared, i: int, address: int, text: seq<byte>, padding: int, jittype: JitType, emAddr: int,
      j: int, place: int, other: seq<byte>, padding': int, jittype': JitType, emAddr': int)
    requires Fresh(sh) && 3 <= |sh.records| && MAX_STRING_SIZE + 2 <= |text| && MAX_STRING_SIZE + 2 <= |other|
    requires 0 < address < ADDRESS_LIMIT && 0 < place < ADDRESS_LIMIT && -128 <= i < 128 && -128 <= j < 128
    requires text[2] < 0x80 && text[3] < 0x80 && other[2] < 0x80 && other[3] < 0x80
    requires i != j || address != place || text[2] as int + text[3] as int != other[2] as int + other[3] as int
    ensures var a, b := SendOf(i, address, text, padding, jittype, emAddr),
                        SendOf(j, place, other, padding', jittype', emAddr');
            Complete(Complete(sh, a, Started), b, Started).records == sh.records[1 := RecordOf(a)][2 := RecordOf(b)]
  {
    var a, b := SendOf(i, address, text, padding, jittype, emAddr), SendOf(j, place, other, padding', jittype', emAddr');
    AsciiSignaturesTell(i, text, address, j, other, place);
    SignatureIsNotZero(i, text, address);
    SignatureIsNotZero(j, other, place);
    assert a.signature != b.signature && a.signature != 0 && b.signature != 0;
    hide *;
    TwoAreStored(sh, a, b);
  }

  lemma TwoAreStored(sh: Shared, a: Send, b: Send)
    requires Fresh(sh) && 3 <= |sh.records| && a.bucket < CACHE_SIZE && b.bucket < CACHE_SIZE
    requires a.signature != b.signature && a.signature != 0 && b.signature != 0
    ensures Complete(Complete(sh, a, Started), b, Started).records == sh.records[1 := RecordOf(a)][2 := RecordOf(b)]
  {
    hide Complete, RecordOf;
    CallIs(sh, a);
    var r := Complete(sh, a, Started);
    assert !Seen(r, b);
    assert Calm(r, b);
    hide Seen, Calm, Fresh;
    CallIs(r, b);
  }
}
