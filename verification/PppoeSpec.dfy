/** PPPoE discovery tags, and what inserting and stripping the relay tag does to a list of them. */
module PppoeSpec {
  import opened Integers
  import opened Ethernet

  const PTT_RELAY_SID: nat := 0x0110
  const MAGIC_CODE: nat := 0x8186
  const TAG_HDR_LEN: nat := 4
  const MAGIC_CODE_LEN: nat := 2
  const RTL_RELAY_TAG_LEN: nat := 6
  const TAG_BUF: nat := 40

  datatype Tag = Tag(kind: U16, data: seq<Byte>) {
    predicate Valid() {
      |data| < TWO16
    }
  }

  function Be16(x: U16): (b: seq<Byte>)
    ensures |b| == 2
  {
    [x / 256, x % 256]
  }

  function FromBe16(hi: Byte, lo: Byte): U16 {
    var (h: int, l: int) := (hi, lo);
    256 * h + l
  }

  function Bytes(t: Tag): (b: seq<Byte>)
    requires t.Valid()
    ensures |b| == TAG_HDR_LEN + |t.data|
  {
    Be16(t.kind) + Be16(|t.data|) + t.data
  }

  predicate ValidTags(ts: seq<Tag>) {
    forall i :: 0 <= i < |ts| ==> ts[i].Valid()
  }

  function Flat(ts: seq<Tag>): seq<Byte>
    requires ValidTags(ts)
  {
    if ts == [] then [] else Bytes(ts[0]) + Flat(ts[1..])
  }

  lemma {:induction false} FlatAppend(ts: seq<Tag>, us: seq<Tag>)
    requires ValidTags(ts) && ValidTags(us)
    ensures Flat(ts + us) == Flat(ts) + Flat(us)
  {
    if ts == [] {
      assert ts + us == us;
    } else {
      FlatAppend(ts[1..], us);
      assert (ts + us)[1..] == ts[1..] + us;
      assert Flat(ts + us) == Bytes(ts[0]) + (Flat(ts[1..]) + Flat(us));
    }
  }

  lemma FlatNone()
    ensures Flat([]) == []
  {
  }

  lemma FlatOne(t: Tag)
    requires t.Valid()
    ensures Flat([t]) == Bytes(t)
  {
    assert [t][1..] == [];
    assert Bytes(t) + [] == Bytes(t);
  }

  /** The tags before i, tag i, and the tags after it. */
  lemma {:induction false} FlatAt(ts: seq<Tag>, i: nat)
    requires ValidTags(ts) && i < |ts|
    ensures Flat(ts) == Flat(ts[..i]) + Bytes(ts[i]) + Flat(ts[i + 1..])
  {
    hide Flat, Bytes;
    Split(ts, i);
    FlatAppend(ts[..i], [ts[i]] + ts[i + 1..]);
    FlatAppend([ts[i]], ts[i + 1..]);
    FlatOne(ts[i]);
    Associative(Flat(ts[..i]), Bytes(ts[i]), Flat(ts[i + 1..]));
  }

  lemma Split<T>(s: seq<T>, i: nat)
    requires i < |s|
    ensures s == s[..i] + ([s[i]] + s[i + 1..])
  {
  }

  lemma Associative<T>(a: seq<T>, b: seq<T>, c: seq<T>)
    ensures a + (b + c) == a + b + c
  {
  }

  /** The first tag of a kind from i on, or the end of the list. */
  function FirstFrom(ts: seq<Tag>, kind: U16, i: nat): (r: nat)
    requires i <= |ts|
    ensures i <= r <= |ts| && (r < |ts| ==> ts[r].kind == kind)
    ensures forall k :: i <= k < r ==> ts[k].kind != kind
    decreases |ts| - i
  {
    if i == |ts| || ts[i].kind == kind then i else FirstFrom(ts, kind, i + 1)
  }

  function First(ts: seq<Tag>, kind: U16): (r: nat)
    ensures r <= |ts| && (r < |ts| ==> ts[r].kind == kind) && forall k :: 0 <= k < r ==> ts[k].kind != kind
  {
    FirstFrom(ts, kind, 0)
  }

  function Without(ts: seq<Tag>, i: nat): (r: seq<Tag>)
    requires i <= |ts|
  {
    if i < |ts| then ts[..i] + ts[i + 1..] else ts
  }

  /** What of an earlier relay tag is carried along; a tag too long for the driver's buffer stops the insert. */
  function OldData(ts: seq<Tag>): seq<Byte> {
    var i := First(ts, PTT_RELAY_SID);
    if i < |ts| then ts[i].data else []
  }

  predicate TooLong(ts: seq<Tag>) {
    |OldData(ts)| + TAG_HDR_LEN + MAGIC_CODE_LEN + RTL_RELAY_TAG_LEN > TAG_BUF
  }

  function RelayTag(mac: Mac, oldData: seq<Byte>): Tag {
    Tag(PTT_RELAY_SID, Be16(MAGIC_CODE) + mac + oldData)
  }

  /** PADI and PADR on their way to the air: the magic code and the client's address in front of everything. */
  function Insert(ts: seq<Tag>, mac: Mac): (r: seq<Tag>)
    requires !TooLong(ts)
  {
    [RelayTag(mac, OldData(ts))] + Without(ts, First(ts, PTT_RELAY_SID))
  }

  /** Whether the first relay tag is one this driver made. */
  predicate Ours(ts: seq<Tag>) {
    var i := First(ts, PTT_RELAY_SID);
    && i < |ts| && |ts[i].data| >= MAGIC_CODE_LEN + RTL_RELAY_TAG_LEN
    && FromBe16(ts[i].data[0], ts[i].data[1]) == MAGIC_CODE
  }

  /** PADO and PADS on their way back: who the client is, and the tags with the driver's part taken out. */
  function Strip(ts: seq<Tag>): (r: (Mac, seq<Tag>))
    requires Ours(ts)
  {
    var i := First(ts, PTT_RELAY_SID);
    var rest := ts[i].data[8..];
    (ts[i].data[2..8], if rest == [] then Without(ts, i) else ts[i := Tag(PTT_RELAY_SID, rest)])
  }

  /** The relay tag on the wire, and how much an earlier one may hold. */
  lemma RelayBytes(mac: Mac, held: seq<Byte>, ts: seq<Tag>)
    requires |held| + 8 < TWO16
    ensures Bytes(RelayTag(mac, held)) ==
            [0x01, 0x10, (8 + |held|) / 256, (8 + |held|) % 256, 0x81, 0x86] + mac + held
    ensures TooLong(ts) <==> |OldData(ts)| > 28
  {
    assert Be16(MAGIC_CODE) == [0x81, 0x86] && Be16(PTT_RELAY_SID) == [0x01, 0x10];
  }

  /** A relay tag copied into a reply, wherever it stands among the other tags, yields the client's address and
      leaves what the tag held before the insert; nothing is left of a tag that held nothing. */
  lemma Echo(reply: seq<Tag>, mac: Mac, held: seq<Byte>)
    requires First(reply, PTT_RELAY_SID) < |reply|
    requires reply[First(reply, PTT_RELAY_SID)] == RelayTag(mac, held)
    ensures Ours(reply) && Strip(reply).0 == mac
    ensures var i := First(reply, PTT_RELAY_SID);
      Strip(reply).1 == if held == [] then Without(reply, i) else reply[i := Tag(PTT_RELAY_SID, held)]
  {
    var data := RelayTag(mac, held).data;
    assert data[0] == 0x81 && data[1] == 0x86;
    assert data[2..8] == mac && data[8..] == held;
  }

  /** Inserting and stripping, for every list of tags: the client is recovered; the tags come back as they were
      when there was no relay tag; the first relay tag comes back with its data, moved to the front, if and only
      if it had any. */
  lemma RoundTrip(ts: seq<Tag>, mac: Mac)
    requires !TooLong(ts)
    ensures Ours(Insert(ts, mac)) && Strip(Insert(ts, mac)).0 == mac
    ensures var i := First(ts, PTT_RELAY_SID); var back := Strip(Insert(ts, mac)).1;
      && (i == |ts| ==> back == ts)
      && (i < |ts| ==> (back == [ts[i]] + Without(ts, i) <==> ts[i].data != []))
      && (i < |ts| && ts[i].data == [] ==> back == Without(ts, i))
  {
    hide Strip, Ours;
    var inserted := Insert(ts, mac);
    assert First(inserted, PTT_RELAY_SID) == 0;
    Echo(inserted, mac, OldData(ts));
    assert Without(inserted, 0) == Without(ts, First(ts, PTT_RELAY_SID));
  }
}
