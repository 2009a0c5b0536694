/**
 The trace file: its wire format (parse_rosetta_trace.py), the parser there and the one of the
 IDA loader, on whole files and on files cut short.
 */
module Trace {
  import opened Words
  import opened Bits

  const HEADER_SIZE: nat := 48

  /** One record before it is given a type of its own. */
  datatype Raw = Raw(event: Word, port: Word, f2: Word, f3: Word, f4: Word, payload: seq<Byte>)

  predicate ValidEvent(e: Word) { 1 <= e <= 6 }

  predicate WellFormed(r: Raw) {
    ValidEvent(r.event) && |r.payload| < TWO64
  }

  // ---------------------------------------------------------------- little-endian words

  function Le(w: nat, n: nat): (s: seq<Byte>)
    ensures |s| == n
  {
    if n == 0 then [] else [w % 0x100] + Le(w / 0x100, n - 1)
  }

  function UnLe(s: seq<Byte>): nat {
    if s == [] then 0 else s[0] + 0x100 * UnLe(s[1..])
  }

  lemma {:induction false} LeRoundTrip(w: nat, n: nat)
    requires w < Pow2(8 * n)
    ensures UnLe(Le(w, n)) == w
  {
    if n > 0 {
      Powers();
      Pow2Add(8, 8 * (n - 1));
      assert 8 * n == 8 + 8 * (n - 1);
      hide Pow2;
      LeRoundTrip(w / 0x100, n - 1);
      assert Le(w, n)[1..] == Le(w / 0x100, n - 1);
    }
  }

  lemma {:induction false} UnLeBound(s: seq<Byte>)
    ensures UnLe(s) < Pow2(8 * |s|)
  {
    if s != [] {
      UnLeBound(s[1..]);
      Powers();
      Pow2Add(8, 8 * (|s| - 1));
      assert 8 * |s| == 8 + 8 * (|s| - 1);
      hide Pow2;
    }
  }

  function Word64(s: seq<Byte>): Word
    requires |s| == 8
  {
    UnLeBound(s);
    LargePowers();
    UnLe(s)
  }

  function Le64(w: Word): (s: seq<Byte>)
    ensures |s| == 8 && Word64(s) == w
  {
    LargePowers();
    LeRoundTrip(w, 8);
    Le(w, 8)
  }

  /** The weight of every byte: byte k counts 256 to the k. */
  function ByteSum(s: seq<Byte>, k: nat): nat
    requires k <= |s|
  {
    if k == 0 then 0 else ByteSum(s, k - 1) + s[k - 1] * Pow2(8 * (k - 1))
  }

  lemma {:induction false} ByteSumTail(s: seq<Byte>, k: nat)
    requires s != [] && k < |s|
    ensures ByteSum(s, k + 1) == s[0] + 0x100 * ByteSum(s[1..], k)
    decreases k
  {
    if k == 0 {
      assert ByteSum(s, 1) == ByteSum(s, 0) + s[0] * Pow2(0);
    } else {
      ByteSumTail(s, k - 1);
      Powers();
      Pow2Add(8, 8 * (k - 1));
      assert 8 * k == 8 + 8 * (k - 1) && s[k] == s[1..][k - 1];
      hide Pow2;
      Weighed(s[k], Pow2(8 * (k - 1)));
    }
  }

  lemma Weighed(b: Byte, p: nat)
    ensures b * (0x100 * p) == 0x100 * (b * p)
  {
  }

  /** A word is the sum of its bytes, each with its weight. */
  lemma {:induction false} UnLeIsSum(s: seq<Byte>)
    ensures UnLe(s) == ByteSum(s, |s|)
  {
    if s != [] {
      UnLeIsSum(s[1..]);
      ByteSumTail(s, |s| - 1);
    }
  }

  /** Eight bytes of a file, the first one counting least. */
  function Little(data: seq<Byte>, at: nat): nat
    requires at + 8 <= |data|
  {
    data[at] as nat + 0x100 * data[at + 1] as nat + 0x1_0000 * data[at + 2] as nat + 0x100_0000 * data[at + 3] as nat
    + 0x1_0000_0000 * data[at + 4] as nat + 0x100_0000_0000 * data[at + 5] as nat
    + 0x1_0000_0000_0000 * data[at + 6] as nat + 0x100_0000_0000_0000 * data[at + 7] as nat
  }

  // ---------------------------------------------------------------- the wire format

  function Padding(n: nat): nat { (8 - n % 8) % 8 }

  function Header(r: Raw): (s: seq<Byte>)
    requires WellFormed(r)
    ensures |s| == HEADER_SIZE
  {
    Le64(r.event) + Le64(r.port) + Le64(r.f2) + Le64(r.f3) + Le64(r.f4) + Le64(|r.payload|)
  }

  function Zeros(n: nat): (s: seq<Byte>)
    ensures |s| == n
  {
    seq(n, i => 0)
  }

  function Encode(r: Raw): (s: seq<Byte>)
    requires WellFormed(r)
    ensures |s| == Size(|r.payload|) && |s| % 8 == 0
  {
    Header(r) + r.payload + Zeros(Padding(|r.payload|))
  }

  /** Bytes a record takes in the file. */
  function Size(payload: nat): (n: nat)
    ensures HEADER_SIZE + payload <= n < HEADER_SIZE + payload + 8 && n % 8 == 0
  {
    HEADER_SIZE + payload + Padding(payload)
  }

  predicate AllWellFormed(rs: seq<Raw>) {
    forall i :: 0 <= i < |rs| ==> WellFormed(rs[i])
  }

  function EncodeAll(rs: seq<Raw>): seq<Byte>
    requires AllWellFormed(rs)
  {
    if rs == [] then [] else Encode(rs[0]) + EncodeAll(rs[1..])
  }

  // ---------------------------------------------------------------- the two parsers

  function FieldAt(data: seq<Byte>, i: nat): Word
    requires 8 * i + 8 <= |data|
  {
    Word64(data[8 * i..8 * i + 8])
  }

  /** The rest of the file after n bytes; nothing, if the file ends before. */
  function Drop(data: seq<Byte>, n: nat): seq<Byte> {
    if n <= |data| then data[n..] else []
  }

  /** data[start:start + len], which Python cuts at the end of the file. */
  function Slice(data: seq<Byte>, start: nat, len: nat): seq<Byte>
    requires start <= |data|
  {
    if start + len <= |data| then data[start..start + len] else data[start..]
  }

  function RecordAt(data: seq<Byte>): Raw
    requires HEADER_SIZE <= |data|
  {
    Raw(FieldAt(data, 0), FieldAt(data, 1), FieldAt(data, 2), FieldAt(data, 3), FieldAt(data, 4),
        Slice(data, HEADER_SIZE, FieldAt(data, 5)))
  }

  /** _parse_records: stops at an unknown event or a payload that is not all there. */
  function LoaderParse(data: seq<Byte>): seq<Raw>
    decreases |data|
  {
    if |data| < HEADER_SIZE || !ValidEvent(FieldAt(data, 0)) || |data| < HEADER_SIZE + FieldAt(data, 5) then []
    else [RecordAt(data)] + LoaderParse(Drop(data, Size(FieldAt(data, 5))))
  }

  /** parse_trace, before records are given types: takes any event, and a short last payload. */
  function ScriptParse(data: seq<Byte>): seq<Raw>
    decreases |data|
  {
    if |data| < HEADER_SIZE then []
    else [RecordAt(data)] + ScriptParse(Drop(data, Size(FieldAt(data, 5))))
  }

  // ---------------------------------------------------------------- what the bytes of a file mean

  /** Byte 8 j + i of a header has weight 256 to the i in field j. */
  lemma FieldIs(data: seq<Byte>, j: nat)
    requires 8 * j + 8 <= |data|
    ensures FieldAt(data, j) == Little(data, 8 * j)
  {
    var s := data[8 * j..8 * j + 8];
    UnLeIsSum(s);
    EightBytes(s);
    hide ByteSum, UnLe;
  }

  lemma EightBytes(s: seq<Byte>)
    requires |s| == 8
    ensures ByteSum(s, 8) == Little(s, 0)
  {
    EightWeights();
    hide Pow2;
    var b: seq<nat> := [s[0], s[1], s[2], s[3], s[4], s[5], s[6], s[7]];
    assert ByteSum(s, 1) == b[0] && ByteSum(s, 2) == ByteSum(s, 1) + b[1] * 0x100;
    assert ByteSum(s, 3) == ByteSum(s, 2) + b[2] * 0x1_0000 && ByteSum(s, 4) == ByteSum(s, 3) + b[3] * 0x100_0000;
    assert ByteSum(s, 5) == ByteSum(s, 4) + b[4] * 0x1_0000_0000 && ByteSum(s, 6) == ByteSum(s, 5) + b[5] * 0x100_0000_0000;
    assert ByteSum(s, 7) == ByteSum(s, 6) + b[6] * 0x1_0000_0000_0000;
    assert ByteSum(s, 8) == ByteSum(s, 7) + b[7] * 0x100_0000_0000_0000;
    hide ByteSum;
  }

  lemma EightWeights()
    ensures Pow2(0) == 1 && Pow2(8) == 0x100 && Pow2(16) == 0x1_0000 && Pow2(24) == 0x100_0000 && Pow2(32) == 0x1_0000_0000
    ensures Pow2(40) == 0x100_0000_0000 && Pow2(48) == 0x1_0000_0000_0000 && Pow2(56) == 0x100_0000_0000_0000
  {
    Powers();
    LargePowers();
    Pow2Add(8, 16);
    Pow2Add(8, 32);
    Pow2Add(16, 32);
    Pow2Add(24, 32);
    hide Pow2;
  }

  /** A record as the bytes of its 48-byte header and of its payload say. */
  predicate Says(data: seq<Byte>, r: Raw)
    requires |data| >= 48
  {
    && r.event == Little(data, 0) && r.port == Little(data, 8) && r.f2 == Little(data, 16)
    && r.f3 == Little(data, 24) && r.f4 == Little(data, 32)
    && (if 48 + Little(data, 40) <= |data| then r.payload == data[48..48 + Little(data, 40)] else r.payload == data[48..])
  }

  lemma RecordSays(data: seq<Byte>)
    requires |data| >= 48
    ensures Says(data, RecordAt(data)) && FieldAt(data, 0) == Little(data, 0) && FieldAt(data, 5) == Little(data, 40)
  {
    FieldIs(data, 0);
    FieldIs(data, 1);
    FieldIs(data, 2);
    FieldIs(data, 3);
    FieldIs(data, 4);
    FieldIs(data, 5);
    hide FieldAt, Little;
  }

  lemma SmallWord(data: seq<Byte>)
    requires |data| >= 8
    ensures 1 <= Little(data, 0) <= 6 <==> 1 <= data[0] <= 6 && forall i :: 1 <= i < 8 ==> data[i] == 0
  {
    if forall i :: 1 <= i < 8 ==> data[i] == 0 {
      assert data[1] == 0 && data[2] == 0 && data[3] == 0 && data[4] == 0 && data[5] == 0 && data[6] == 0 && data[7] == 0;
    }
  }

  lemma NextMultiple(n: nat)
    ensures Size(n) == 8 * ((48 + n + 7) / 8)
  {
  }

  lemma LoaderOnce(data: seq<Byte>)
    requires |data| >= 48
    ensures LoaderParse(data) ==
      if !ValidEvent(FieldAt(data, 0)) || |data| < 48 + FieldAt(data, 5) then []
      else [RecordAt(data)] + LoaderParse(Drop(data, Size(FieldAt(data, 5))))
  {
    hide RecordAt, FieldAt, Size, Drop;
  }

  lemma ScriptOnce(data: seq<Byte>)
    requires |data| >= 48
    ensures ScriptParse(data) == [RecordAt(data)] + ScriptParse(Drop(data, Size(FieldAt(data, 5))))
  {
    hide RecordAt, FieldAt, Size, Drop;
  }

  lemma HeadAndTail(r: Raw, rs: seq<Raw>)
    ensures var all := [r] + rs; all[0] == r && all[1..] == rs && all != []
  {
  }

  /** 48 bytes of which the first is 1 to 6 and the seven after it are zero, and as many more as bytes 40 to 47 say. */
  predicate BeginsRecord(data: seq<Byte>) {
    && |data| >= 48 && 1 <= data[0] <= 6 && (forall i :: 1 <= i < 8 ==> data[i] == 0)
    && 48 + Little(data, 40) <= |data|
  }

  /** What follows the first record: the file from the next multiple of eight. */
  function After(data: seq<Byte>): seq<Byte>
    requires |data| >= 48
  {
    Drop(data, 8 * ((48 + Little(data, 40) + 7) / 8))
  }

  lemma AfterIs(data: seq<Byte>)
    requires |data| >= 48
    ensures Drop(data, Size(FieldAt(data, 5))) == After(data)
  {
    RecordSays(data);
    NextMultiple(Little(data, 40));
    hide FieldAt, Little, Says, Drop, Size;
  }

  lemma BeginsIs(data: seq<Byte>)
    requires |data| >= 48
    ensures BeginsRecord(data) <==> ValidEvent(FieldAt(data, 0)) && |data| >= 48 + FieldAt(data, 5)
  {
    RecordSays(data);
    SmallWord(data);
    hide FieldAt, Little, Says;
  }

  /** When the loader accepts a first record, which one, and where it goes on. */
  lemma LoaderReads(data: seq<Byte>)
    ensures LoaderParse(data) != [] <==> BeginsRecord(data)
    ensures BeginsRecord(data) ==> Says(data, LoaderParse(data)[0]) && LoaderParse(data)[1..] == LoaderParse(After(data))
  {
    if |data| >= 48 {
      hide ValidEvent, RecordAt, FieldAt, Says, Drop, Size, BeginsRecord, After;
      RecordSays(data);
      BeginsIs(data);
      AfterIs(data);
      LoaderOnce(data);
      hide LoaderParse;
      HeadAndTail(RecordAt(data), LoaderParse(After(data)));
    }
  }

  /** The script takes whatever record 48 bytes begin. */
  lemma ScriptReads(data: seq<Byte>)
    ensures ScriptParse(data) != [] <==> |data| >= 48
    ensures |data| >= 48 ==> Says(data, ScriptParse(data)[0]) && ScriptParse(data)[1..] == ScriptParse(After(data))
  {
    if |data| >= 48 {
      hide RecordAt, FieldAt, Says, Drop, Size, After;
      RecordSays(data);
      AfterIs(data);
      ScriptOnce(data);
      hide ScriptParse;
      HeadAndTail(RecordAt(data), ScriptParse(After(data)));
    }
  }

  // ---------------------------------------------------------------- records come back

  lemma HeaderFields(data: seq<Byte>, r: Raw)
    requires WellFormed(r) && |data| >= HEADER_SIZE && data[..HEADER_SIZE] == Header(r)
    ensures FieldAt(data, 0) == r.event && FieldAt(data, 1) == r.port && FieldAt(data, 2) == r.f2
    ensures FieldAt(data, 3) == r.f3 && FieldAt(data, 4) == r.f4 && FieldAt(data, 5) == |r.payload|
  {
    hide Word64, Le64;
    var h := data[..HEADER_SIZE];
    assert data[0..8] == h[0..8] && data[8..16] == h[8..16] && data[16..24] == h[16..24];
    assert data[24..32] == h[24..32] && data[32..40] == h[32..40] && data[40..48] == h[40..48];
    HeaderParts(Le64(r.event), Le64(r.port), Le64(r.f2), Le64(r.f3), Le64(r.f4), Le64(|r.payload|), h);
  }

  lemma HeaderParts(a: seq<Byte>, b: seq<Byte>, c: seq<Byte>, d: seq<Byte>, e: seq<Byte>, f: seq<Byte>, h: seq<Byte>)
    requires |a| == 8 && |b| == 8 && |c| == 8 && |d| == 8 && |e| == 8 && |f| == 8
    requires h == a + b + c + d + e + f
    ensures |h| == 48 && h[0..8] == a && h[8..16] == b && h[16..24] == c
    ensures h[24..32] == d && h[32..40] == e && h[40..48] == f
  {
  }

  /** The payload begins after the header. */
  lemma EncodedParts(r: Raw, rest: seq<Byte>)
    requires WellFormed(r)
    ensures var data := Encode(r) + rest;
      && |data| == Size(|r.payload|) + |rest| && data[..HEADER_SIZE] == Header(r)
      && data[HEADER_SIZE..HEADER_SIZE + |r.payload|] == r.payload && data[Size(|r.payload|)..] == rest
  {
    hide Header, Zeros;
    var h, p, z := Header(r), r.payload, Zeros(Padding(|r.payload|));
    assert Encode(r) + rest == h + (p + (z + rest));
    assert (h + (p + (z + rest)))[HEADER_SIZE..] == p + (z + rest);
  }

  lemma FirstRecord(r: Raw, rest: seq<Byte>)
    requires WellFormed(r)
    ensures var data := Encode(r) + rest;
      && |data| >= HEADER_SIZE + |r.payload|
      && FieldAt(data, 0) == r.event && FieldAt(data, 5) == |r.payload|
      && RecordAt(data) == r && Drop(data, Size(|r.payload|)) == rest
  {
    hide Encode, FieldAt, Header;
    EncodedParts(r, rest);
    HeaderFields(Encode(r) + rest, r);
  }

  /** Both parsers recover every list of records from its encoding, and every record is 8-aligned. */
  lemma {:induction false} RoundTrip(rs: seq<Raw>)
    requires AllWellFormed(rs)
    ensures LoaderParse(EncodeAll(rs)) == rs && ScriptParse(EncodeAll(rs)) == rs
    ensures |EncodeAll(rs)| % 8 == 0
  {
    hide Encode, RecordAt, FieldAt, Size, Drop;
    if rs != [] {
      FirstRecord(rs[0], EncodeAll(rs[1..]));
      RoundTrip(rs[1..]);
    }
  }

  // ---------------------------------------------------------------- files cut short

  /** Where record i begins. */
  function Start(rs: seq<Raw>, i: nat): nat
    requires i <= |rs|
  {
    if i == 0 then 0 else Size(|rs[0].payload|) + Start(rs[1..], i - 1)
  }

  /** How many records have header and payload before byte n. */
  function Whole(rs: seq<Raw>, n: nat): (k: nat)
    ensures k <= |rs|
  {
    if rs == [] || n < HEADER_SIZE + |rs[0].payload| then 0
    else if n < Size(|rs[0].payload|) then 1
    else 1 + Whole(rs[1..], n - Size(|rs[0].payload|))
  }

  lemma {:induction false} StartIsLength(rs: seq<Raw>, i: nat)
    requires AllWellFormed(rs) && i <= |rs|
    ensures Start(rs, i) == |EncodeAll(rs[..i])|
  {
    hide Encode, Size;
    if i > 0 {
      StartIsLength(rs[1..], i - 1);
      assert rs[..i][1..] == rs[1..][..i - 1];
    }
  }

  lemma {:induction false} WholeMeans(rs: seq<Raw>, n: nat, i: nat)
    requires i < |rs|
    ensures i < Whole(rs, n) <==> Start(rs, i) + HEADER_SIZE + |rs[i].payload| <= n
  {
    hide Padding;
    if i > 0 {
      WholeMeans(rs[1..], if n < Size(|rs[0].payload|) then 0 else n - Size(|rs[0].payload|), i - 1);
    }
  }

  /** What is left when the file is cut inside the first record. */
  lemma CutRecord(r: Raw, rest: seq<Byte>, n: nat)
    requires WellFormed(r) && HEADER_SIZE <= n < Size(|r.payload|)
    ensures var data := (Encode(r) + rest)[..n];
      && FieldAt(data, 0) == r.event && FieldAt(data, 5) == |r.payload| && Drop(data, Size(|r.payload|)) == []
      && RecordAt(data) == r.(payload := if n < HEADER_SIZE + |r.payload| then r.payload[..n - HEADER_SIZE] else r.payload)
  {
    hide Encode, FieldAt, Header, Size;
    EncodedParts(r, rest);
    var whole := Encode(r) + rest;
    var data := whole[..n];
    assert data[..HEADER_SIZE] == whole[..HEADER_SIZE];
    HeaderFields(data, r);
    hide Drop;
    CutPayload(whole, data, r.payload, n);
    assert Drop(data, Size(|r.payload|)) == [] by { DropAll(data, Size(|r.payload|)); }
  }

  lemma DropAll(data: seq<Byte>, n: nat)
    requires |data| < n
    ensures Drop(data, n) == []
  {
  }

  lemma CutPayload(whole: seq<Byte>, data: seq<Byte>, p: seq<Byte>, n: nat)
    requires HEADER_SIZE <= n <= |whole| && data == whole[..n] && HEADER_SIZE + |p| <= |whole|
    requires whole[HEADER_SIZE..HEADER_SIZE + |p|] == p
    ensures Slice(data, HEADER_SIZE, |p|) == if n < HEADER_SIZE + |p| then p[..n - HEADER_SIZE] else p
  {
  }

  /** Cutting past the first record cuts the rest. */
  lemma CutLater(r: Raw, rest: seq<Byte>, n: nat)
    requires WellFormed(r) && Size(|r.payload|) <= n <= Size(|r.payload|) + |rest|
    ensures (Encode(r) + rest)[..n] == Encode(r) + rest[..n - Size(|r.payload|)]
  {
    hide Header, Zeros;
  }

  /** The loader returns exactly the records whose header and payload lie before the cut. */
  lemma {:induction false} LoaderCut(rs: seq<Raw>, n: nat)
    requires AllWellFormed(rs) && n <= |EncodeAll(rs)|
    ensures LoaderParse(EncodeAll(rs)[..n]) == rs[..Whole(rs, n)]
  {
    hide Encode, RecordAt, FieldAt, Drop, Padding;
    if rs != [] && n >= HEADER_SIZE {
      var r, rest := rs[0], EncodeAll(rs[1..]);
      if n < Size(|r.payload|) {
        CutRecord(r, rest, n);
        assert LoaderParse([]) == [];
      } else {
        CutLater(r, rest, n);
        FirstRecord(r, rest[..n - Size(|r.payload|)]);
        LoaderCut(rs[1..], n - Size(|r.payload|));
      }
    }
  }

  /** What the script returns besides: the record that is cut, if its header is there. */
  function Partial(rs: seq<Raw>, n: nat): seq<Raw> {
    var k := Whole(rs, n);
    if k < |rs| && Start(rs, k) + HEADER_SIZE <= n < Start(rs, k) + HEADER_SIZE + |rs[k].payload|
    then [rs[k].(payload := rs[k].payload[..n - Start(rs, k) - HEADER_SIZE])]
    else []
  }

  /** The script does not notice the cut: it adds the last record with a short payload. */
  lemma {:induction false} ScriptCut(rs: seq<Raw>, n: nat)
    requires AllWellFormed(rs) && n <= |EncodeAll(rs)|
    ensures ScriptParse(EncodeAll(rs)[..n]) == LoaderParse(EncodeAll(rs)[..n]) + Partial(rs, n)
  {
    hide Encode, RecordAt, FieldAt, Drop, Padding;
    if rs != [] && n >= HEADER_SIZE {
      var r, rest := rs[0], EncodeAll(rs[1..]);
      if n < Size(|r.payload|) {
        CutRecord(r, rest, n);
        assert LoaderParse([]) == [] && ScriptParse([]) == [];
      } else {
        CutLater(r, rest, n);
        FirstRecord(r, rest[..n - Size(|r.payload|)]);
        ScriptCut(rs[1..], n - Size(|r.payload|));
      }
    }
  }

  // ---------------------------------------------------------------- the loops

  lemma DropDrop(data: seq<Byte>, a: nat, b: nat)
    requires a <= |data|
    ensures Drop(data[a..], b) == Drop(data, a + b)
  {
  }

  method ParseRecords(data: seq<Byte>) returns (records: seq<Raw>)
    ensures records == LoaderParse(data)
  {
    hide RecordAt, FieldAt, Size;
    records := [];
    var offset := 0;
    while offset + HEADER_SIZE <= |data|
      invariant records + LoaderParse(Drop(data, offset)) == LoaderParse(data)
      decreases |data| + HEADER_SIZE - offset
    {
      var rest := data[offset..];
      if !ValidEvent(FieldAt(rest, 0)) {
        break;
      }
      var len := FieldAt(rest, 5);
      if offset + HEADER_SIZE + len > |data| {
        break;
      }
      DropDrop(data, offset, Size(len));
      records := records + [RecordAt(rest)];
      offset := offset + Size(len);
    }
  }

  method ParseTrace(data: seq<Byte>) returns (records: seq<Raw>)
    ensures records == ScriptParse(data)
  {
    hide RecordAt, FieldAt, Size;
    records := [];
    var offset := 0;
    while offset + HEADER_SIZE <= |data|
      invariant records + ScriptParse(Drop(data, offset)) == ScriptParse(data)
      decreases |data| + HEADER_SIZE - offset
    {
      var rest := data[offset..];
      var len := FieldAt(rest, 5);
      DropDrop(data, offset, Size(len));
      records := records + [RecordAt(rest)];
      offset := offset + Size(len);
    }
  }
}
