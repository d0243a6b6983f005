/** The relay tag inserted and stripped in place, in the bytes of a discovery frame. */
module PppoeFrame {
  import opened Integers
  import opened Ethernet
  import opened PppoeSpec

  const CODE_AT: nat := 15
  const LEN_AT: nat := 18    // the length field of the PPPoE header
  const TAG_AT: nat := 20    // the first tag

  const PADI_CODE: Byte := 0x09
  const PADR_CODE: Byte := 0x19

  /** The room asked for when a tag of this data length is added: the length is taken in host order. */
  function RoomAsked(bigEndian: bool, dataLen: U16): nat {
    HostOrder(bigEndian, dataLen) + TAG_HDR_LEN
  }

  /** Only a big-endian host asks for as much room as the relay tag takes; a little-endian one asks for
      2052 bytes or more. */
  lemma RoomIsSize(bigEndian: bool, held: nat)
    requires held + TAG_HDR_LEN + MAGIC_CODE_LEN + RTL_RELAY_TAG_LEN <= TAG_BUF
    ensures bigEndian <==> RoomAsked(bigEndian, MAGIC_CODE_LEN + RTL_RELAY_TAG_LEN + held) == 12 + held
    ensures !bigEndian ==> RoomAsked(bigEndian, MAGIC_CODE_LEN + RTL_RELAY_TAG_LEN + held) == 2052 + 256 * held
  {
    var n := MAGIC_CODE_LEN + RTL_RELAY_TAG_LEN + held;
    assert n / 256 == 0 && n % 256 == n;
  }

  /** The bytes a memcpy of n bytes takes when it starts at a tag: the tag's own, cut short or followed by what lies
      behind them in memory. */
  function Copied(tag: Tag, behind: seq<Byte>, n: nat): (r: seq<Byte>)
    requires tag.Valid() && n <= |Bytes(tag)| + |behind|
    ensures |r| == n
  {
    (Bytes(tag) + behind)[..n]
  }

  /** It takes exactly the tag if the room asked for is the tag's size. */
  lemma CopiedWhole(tag: Tag, behind: seq<Byte>)
    requires tag.Valid()
    ensures Copied(tag, behind, |Bytes(tag)|) == Bytes(tag)
  {
  }

  /** Header, length field, payload f, and possibly padding. */
  predicate Holds(s: seq<Byte>, f: seq<Byte>) {
    && TAG_AT + |f| <= |s| && |f| < TWO16
    && FromBe16(s[LEN_AT], s[LEN_AT + 1]) == |f|
    && s[TAG_AT..TAG_AT + |f|] == f
  }

  ghost predicate Carries(s: seq<Byte>, ts: seq<Tag>) {
    ValidTags(ts) && Holds(s, Flat(ts))
  }

  /** Where the length field and the first tag of a frame stand. */
  lemma FrameLayout(s: seq<Byte>, t: Tag, rest: seq<Tag>)
    requires ValidTags([t] + rest) && Carries(s, [t] + rest)
    ensures 20 + |Bytes(t)| <= |s| && s[20..20 + |Bytes(t)|] == Bytes(t)
    ensures var (hi: int, lo: int) := (s[18], s[19]); 256 * hi + lo == |Flat([t] + rest)|
  {
    var f := Flat([t] + rest);
    assert ([t] + rest)[1..] == rest && f == Bytes(t) + Flat(rest);
    hide Flat, Bytes;
    assert s[20..20 + |Bytes(t)|] == s[20..20 + |f|][..|Bytes(t)|];
  }

  function SetLength(s: seq<Byte>, n: U16): (r: seq<Byte>)
    requires |s| >= TAG_AT
    ensures |r| == |s| && r[..LEN_AT] == s[..LEN_AT] && r[TAG_AT..] == s[TAG_AT..]
    ensures FromBe16(r[LEN_AT], r[LEN_AT + 1]) == n
  {
    s[LEN_AT := n / 256][LEN_AT + 1 := n % 256]
  }

  function Cut(s: seq<Byte>, at: nat, n: nat): (r: seq<Byte>)
    requires at + n <= |s|
  {
    s[..at] + s[at + n..]
  }

  /** The length field belongs to one length of payload. */
  lemma OneLength(s: seq<Byte>, f: seq<Byte>, g: seq<Byte>)
    requires Holds(s, f) && Holds(s, g)
    ensures |f| == |g|
  {
  }

  /** Taking t out of a payload a + t + b and correcting the length field leaves the payload a + b. */
  lemma CutHolds(s: seq<Byte>, a: seq<Byte>, t: seq<Byte>, b: seq<Byte>)
    requires Holds(s, a + t + b)
    ensures Holds(SetLength(Cut(s, TAG_AT + |a|, |t|), |a| + |b|), a + b)
  {
    var f := a + t + b;
    var cut := Cut(s, TAG_AT + |a|, |t|);
    forall k | 0 <= k < |a| + |b|
      ensures cut[TAG_AT..][k] == (a + b)[k]
    {
      var j := if k < |a| then k else k + |t|;
      assert s[TAG_AT..TAG_AT + |f|][j] == f[j];
    }
    var r := SetLength(cut, |a| + |b|);
    assert r[TAG_AT..TAG_AT + |a + b|] == r[TAG_AT..][..|a + b|] == cut[TAG_AT..][..|a + b|] == a + b;
  }

  /** A buffer with the bytes d laid over it. */
  function Blit(b: seq<Byte>, at: nat, d: seq<Byte>): (r: seq<Byte>)
    requires at + |d| <= |b|
    ensures |r| == |b|
  {
    b[..at] + d + b[at + |d|..]
  }

  /** Moving the payload up, writing the length and laying t in the gap puts t before the payload. */
  lemma BlitHolds(b: seq<Byte>, t: seq<Byte>, f: seq<Byte>)
    requires TAG_AT + |t| + |f| <= |b| && |t| + |f| < TWO16
    ensures var r := Blit(Blit(Blit(b, TAG_AT + |t|, f), LEN_AT, Be16(|t| + |f|)), TAG_AT, t);
      Holds(r, t + f) && r[..LEN_AT] == b[..LEN_AT]
  {
    var b1 := Blit(b, TAG_AT + |t|, f);
    var b2 := Blit(b1, LEN_AT, Be16(|t| + |f|));
    var r := Blit(b2, TAG_AT, t);
    forall k | 0 <= k < |t| + |f|
      ensures r[TAG_AT + k] == (t + f)[k]
    {
      if k >= |t| { assert b1[TAG_AT + k] == f[k - |t|]; }
    }
    assert r[TAG_AT..TAG_AT + |t + f|] == t + f;
    assert r[LEN_AT] == Be16(|t| + |f|)[0] && r[LEN_AT + 1] == Be16(|t| + |f|)[1];
  }

  lemma Payload(b: seq<Byte>, n: nat, f: seq<Byte>)
    requires n <= |b| && Holds(b[..n], f)
    ensures TAG_AT + |f| <= n && FromBe16(b[LEN_AT], b[LEN_AT + 1]) == |f| && b[TAG_AT..TAG_AT + |f|] == f
  {
    assert b[TAG_AT..TAG_AT + |f|] == b[..n][TAG_AT..TAG_AT + |f|];
  }

  lemma HoldsFront(b: seq<Byte>, n: nat, f: seq<Byte>)
    requires Holds(b, f) && TAG_AT + |f| <= n <= |b|
    ensures Holds(b[..n], f) && b[..n][..LEN_AT] == b[..LEN_AT]
  {
    assert b[..n][TAG_AT..TAG_AT + |f|] == b[TAG_AT..TAG_AT + |f|];
  }

  /** The three writes that put t in front of a payload f, in a frame of n bytes that grows by as many as t has. */
  lemma Prepended(b: seq<Byte>, n: nat, t: seq<Byte>, f: seq<Byte>)
    requires n + |t| <= |b| && TAG_AT + |f| <= n && |t| + |f| < TWO16
    ensures var r := Blit(Blit(Blit(b, TAG_AT + |t|, f), LEN_AT, Be16(|t| + |f|)), TAG_AT, t);
      Holds(r[..n + |t|], t + f) && r[..n + |t|][..LEN_AT] == b[..n][..LEN_AT]
  {
    hide Blit, Holds, Be16;
    BlitHolds(b, t, f);
    HoldsFront(Blit(Blit(Blit(b, TAG_AT + |t|, f), LEN_AT, Be16(|t| + |f|)), TAG_AT, t), n + |t|, t + f);
  }

  /** The walk ends behind the last tag and not before. */
  lemma Remaining(ts: seq<Tag>, i: nat)
    requires ValidTags(ts) && i <= |ts|
    ensures i < |ts| <==> |Flat(ts[..i])| < |Flat(ts)|
  {
    hide Flat;
    if i < |ts| { FlatAt(ts, i); } else { assert ts[..i] == ts; }
  }

  /** Where the walk over the tags stands after i of them, and what it reads there. */
  lemma Cursor(s: seq<Byte>, ts: seq<Tag>, i: nat)
    requires Carries(s, ts) && i < |ts|
    ensures |Flat(ts[..i])| + TAG_HDR_LEN + |ts[i].data| <= |Flat(ts)|
    ensures var at := TAG_AT + |Flat(ts[..i])|;
      && at + TAG_HDR_LEN <= |s|
      && FromBe16(s[at], s[at + 1]) == ts[i].kind && FromBe16(s[at + 2], s[at + 3]) == |ts[i].data|
      && at + TAG_HDR_LEN + |ts[i].data| <= |s|
      && s[at + TAG_HDR_LEN..at + TAG_HDR_LEN + |ts[i].data|] == ts[i].data
    ensures |Flat(ts[..i + 1])| == |Flat(ts[..i])| + TAG_HDR_LEN + |ts[i].data|
  {
    hide Flat;
    FlatAt(ts, i);
    FlatAppend(ts[..i], [ts[i]]);
    FlatOne(ts[i]);
    assert ts[..i + 1] == ts[..i] + [ts[i]];
    var a, t, f := |Flat(ts[..i])|, Bytes(ts[i]), Flat(ts);
    assert f[a..a + |t|] == t;
    Subrange(s, TAG_AT, TAG_AT + |f|, a, a + |t|);
    hide Holds, Bytes;
    TagAt(s, TAG_AT + a, ts[i]);
  }

  lemma TagAt(s: seq<Byte>, at: nat, t: Tag)
    requires t.Valid() && at + |Bytes(t)| <= |s| && s[at..at + |Bytes(t)|] == Bytes(t)
    ensures FromBe16(s[at], s[at + 1]) == t.kind && FromBe16(s[at + 2], s[at + 3]) == |t.data|
    ensures s[at + TAG_HDR_LEN..at + TAG_HDR_LEN + |t.data|] == t.data
  {
    var b := Bytes(t);
    At(s, at, b, 0);
    At(s, at, b, 1);
    At(s, at, b, 2);
    At(s, at, b, 3);
    Subrange(s, at, at + |b|, TAG_HDR_LEN, |b|);
  }

  /** Cutting tag i out of the frame and its bytes out of the length leaves the other tags. */
  lemma CutTag(s: seq<Byte>, ts: seq<Tag>, i: nat)
    requires Carries(s, ts) && i < |ts|
    ensures var at, n := TAG_AT + |Flat(ts[..i])|, TAG_HDR_LEN + |ts[i].data|;
      && at + n <= |s| && 0 <= |Flat(ts)| - n < TWO16
      && var cut := Cut(s, at, n); var r := SetLength(cut, |Flat(ts)| - n);
      && FromBe16(cut[LEN_AT], cut[LEN_AT + 1]) == |Flat(ts)|
      && Carries(r, Without(ts, i)) && r[..LEN_AT] == s[..LEN_AT]
  {
    hide Flat, Bytes;
    FlatAt(ts, i);
    FlatAppend(ts[..i], ts[i + 1..]);
    CutHolds(s, Flat(ts[..i]), Bytes(ts[i]), Flat(ts[i + 1..]));
  }

  lemma FlatCons(t: Tag, ts: seq<Tag>)
    requires t.Valid() && ValidTags(ts)
    ensures ValidTags([t] + ts) && Flat([t] + ts) == Bytes(t) + Flat(ts)
  {
    assert ([t] + ts)[1..] == ts;
  }

  /** Writing a 16-bit field inside the payload. */
  lemma PatchHolds(s: seq<Byte>, f: seq<Byte>, p: nat, x: U16)
    requires Holds(s, f) && p + 2 <= |f|
    ensures Holds(Patch(s, TAG_AT + p, x), Patch(f, p, x))
  {
    forall k | 0 <= k < |f|
      ensures Patch(s, TAG_AT + p, x)[TAG_AT + k] == Patch(f, p, x)[k]
    {
      assert s[TAG_AT..TAG_AT + |f|][k] == f[k];
    }
    assert Patch(s, TAG_AT + p, x)[TAG_AT..TAG_AT + |f|] == Patch(f, p, x);
  }

  function Patch(s: seq<Byte>, p: nat, x: U16): (r: seq<Byte>)
    requires p + 2 <= |s|
    ensures |r| == |s|
  {
    s[p := x / 256][p + 1 := x % 256]
  }

  /** Tag i without the first n bytes of its data. */
  function Shrunk(ts: seq<Tag>, i: nat, n: nat): (r: seq<Tag>)
    requires i < |ts| && n <= |ts[i].data|
  {
    ts[i := Tag(ts[i].kind, ts[i].data[n..])]
  }

  /** Everything up to a tag's data. */
  function Front(a: seq<Byte>, t: Tag): (r: seq<Byte>)
    requires t.Valid()
    ensures |r| == |a| + TAG_HDR_LEN
  {
    a + (Be16(t.kind) + Be16(|t.data|))
  }

  /** A payload cut before and behind the first n bytes of a tag's data. */
  function Whole(a: seq<Byte>, t: Tag, n: nat, b: seq<Byte>): (r: seq<Byte>)
    requires t.Valid() && n <= |t.data|
    ensures |r| == |a| + TAG_HDR_LEN + |t.data| + |b|
  {
    Front(a, t) + t.data[..n] + (t.data[n..] + b)
  }

  /** The payload without those bytes, the length of the tag corrected. */
  function Trimmed(a: seq<Byte>, t: Tag, n: nat, b: seq<Byte>): seq<Byte>
    requires t.Valid() && n <= |t.data|
  {
    Patch(Front(a, t) + (t.data[n..] + b), |a| + 2, |t.data| - n)
  }

  /** Cutting those bytes out of the tags' bytes and correcting the tag's length. */
  lemma FlatShrunk(ts: seq<Tag>, i: nat, n: nat)
    requires ValidTags(ts) && i < |ts| && n <= |ts[i].data|
    ensures ValidTags(Shrunk(ts, i, n))
    ensures Flat(ts) == Whole(Flat(ts[..i]), ts[i], n, Flat(ts[i + 1..]))
    ensures Flat(Shrunk(ts, i, n)) == Trimmed(Flat(ts[..i]), ts[i], n, Flat(ts[i + 1..]))
  {
    hide Flat, Bytes, Trimmed, Whole;
    FlatAt(ts, i);
    var us := Shrunk(ts, i, n);
    FlatAt(us, i);
    assert us[..i] == ts[..i] && us[i + 1..] == ts[i + 1..];
    Pieces(Flat(ts[..i]), ts[i], n, Flat(ts[i + 1..]));
  }

  lemma Pieces(a: seq<Byte>, t: Tag, n: nat, b: seq<Byte>)
    requires t.Valid() && n <= |t.data|
    ensures a + Bytes(t) + b == Whole(a, t, n, b)
    ensures a + Bytes(Tag(t.kind, t.data[n..])) + b == Trimmed(a, t, n, b)
  {
    assert t.data == t.data[..n] + t.data[n..];
  }

  function Freed(ts: seq<Tag>): nat {
    if First(ts, PTT_RELAY_SID) < |ts| then TAG_HDR_LEN + |OldData(ts)| else 0
  }

  /** It is how many bytes the frame's payload shrinks by when its first relay tag goes. */
  lemma FreedIs(ts: seq<Tag>)
    requires ValidTags(ts)
    ensures ValidTags(Without(ts, First(ts, PTT_RELAY_SID)))
    ensures |Flat(ts)| == |Flat(Without(ts, First(ts, PTT_RELAY_SID)))| + Freed(ts)
  {
    var i := First(ts, PTT_RELAY_SID);
    hide Flat, Bytes, First;
    if i < |ts| {
      FlatAt(ts, i);
      FlatAppend(ts[..i], ts[i + 1..]);
    }
  }

  lemma Prefixes<T>(r: seq<T>, s: seq<T>, m: nat, n: nat)
    requires m <= n <= |r| && n <= |s| && r[..n] == s[..n]
    ensures r[..m] == s[..m] && r[m..n] == s[m..n]
  {
    assert r[..m] == r[..n][..m] && r[m..n] == r[..n][m..];
  }

  lemma OursIs(ts: seq<Tag>)
    requires First(ts, PTT_RELAY_SID) < |ts|
    ensures var data := ts[First(ts, PTT_RELAY_SID)].data;
      && (Ours(ts) <==> |data| >= MAGIC_CODE_LEN + RTL_RELAY_TAG_LEN && FromBe16(data[0], data[1]) == MAGIC_CODE)
      && (Ours(ts) ==> |data| >= 8 && Strip(ts).0 == data[2..8])
  {
    hide First;
  }

  /** What tells the driver's own relay tag, read off the frame. */
  lemma OursInBytes(s: seq<Byte>, ts: seq<Tag>)
    requires Carries(s, ts) && First(ts, PTT_RELAY_SID) < |ts|
    ensures var i := First(ts, PTT_RELAY_SID); var at := TAG_AT + |Flat(ts[..i])|; var n := |ts[i].data|;
      && at + TAG_HDR_LEN + n <= |s|
      && (Ours(ts) <==> n >= MAGIC_CODE_LEN + RTL_RELAY_TAG_LEN && FromBe16(s[at + 4], s[at + 5]) == MAGIC_CODE)
      && (Ours(ts) ==> s[at + 6..at + 12] == Strip(ts).0)
  {
    var i := First(ts, PTT_RELAY_SID);
    Cursor(s, ts, i);
    OursIs(ts);
    hide Flat, Holds, First, Ours, Strip, FromBe16;
    var at, data := TAG_AT + |Flat(ts[..i])|, ts[i].data;
    if |data| >= MAGIC_CODE_LEN + RTL_RELAY_TAG_LEN { DataAt(s, at + TAG_HDR_LEN, data); }
  }

  lemma DataAt(s: seq<Byte>, from: nat, d: seq<Byte>)
    requires from + |d| <= |s| && s[from..from + |d|] == d && |d| >= 8
    ensures s[from] == d[0] && s[from + 1] == d[1] && s[from + 2..from + 8] == d[2..8]
  {
    At(s, from, d, 0);
    At(s, from, d, 1);
    Subrange(s, from, from + |d|, 2, 8);
  }

  lemma At(s: seq<Byte>, from: nat, d: seq<Byte>, k: nat)
    requires from + |d| <= |s| && s[from..from + |d|] == d && k < |d|
    ensures s[from + k] == d[k]
  {
    assert s[from..from + |d|][k] == d[k];
  }

  lemma FrontSlice<T>(s: seq<T>, n: nat, a: nat, b: nat)
    requires a <= b <= n <= |s|
    ensures s[..n][a..b] == s[a..b]
  {
    assert forall k :: 0 <= k < b - a ==> s[..n][a..b][k] == s[a..b][k];
  }

  lemma Subrange<T>(s: seq<T>, a: nat, b: nat, c: nat, d: nat)
    requires a <= b <= |s| && c <= d <= b - a
    ensures s[a..b][c..d] == s[a + c..a + d]
  {
    forall k | 0 <= k < d - c
      ensures s[a..b][c..d][k] == s[a + c..a + d][k]
    {
      assert s[a..b][c + k] == s[a + (c + k)];
    }
  }

  /** A cut behind the header leaves the length field, which is then corrected, and what is before it. */
  lemma CutFront(s: seq<Byte>, f: seq<Byte>, at: nat, n: nat)
    requires Holds(s, f) && TAG_AT <= at && at + n <= TAG_AT + |f| && n <= |f|
    ensures at + n <= |s|
    ensures var cut := Cut(s, at, n);
      FromBe16(cut[LEN_AT], cut[LEN_AT + 1]) == |f| && SetLength(cut, |f| - n)[..LEN_AT] == s[..LEN_AT]
  {
    var cut := Cut(s, at, n);
    hide SetLength;
    assert cut[..LEN_AT] == s[..LEN_AT];
  }

  /** Cutting eight bytes off tag i's data and correcting both length fields. */
  lemma CutData(s: seq<Byte>, ts: seq<Tag>, i: nat, at: nat, n: nat)
    requires Carries(s, ts) && i < |ts| && |ts[i].data| >= 8
    requires at == TAG_AT + |Flat(ts[..i])| && n == |Flat(ts)|
    ensures at + TAG_HDR_LEN + 8 <= |s| && n >= 8
    ensures var cut := Cut(s, at + TAG_HDR_LEN, 8); var r := SetLength(cut, n - 8);
      && FromBe16(cut[LEN_AT], cut[LEN_AT + 1]) == n && r[..LEN_AT] == s[..LEN_AT]
      && Carries(Patch(r, at + 2, |ts[i].data| - 8), Shrunk(ts, i, 8))
  {
    FlatShrunk(ts, i, 8);
    hide Flat, Bytes, Holds, Cut, SetLength, Patch, Shrunk, FromBe16, Whole, Trimmed;
    CutDataBytes(s, Flat(ts), Flat(Shrunk(ts, i, 8)), Flat(ts[..i]), ts[i], Flat(ts[i + 1..]), at, n);
  }

  /** The same in bytes: a tag between a and b loses the first eight bytes of its data. */
  lemma CutDataBytes(
      s: seq<Byte>, f: seq<Byte>, f': seq<Byte>, a: seq<Byte>, t: Tag, b: seq<Byte>, at: nat, n: nat)
    requires t.Valid() && |t.data| >= 8 && Holds(s, f) && at == TAG_AT + |a| && n == |f|
    requires f == Whole(a, t, 8, b) && f' == Trimmed(a, t, 8, b)
    ensures at + TAG_HDR_LEN + 8 <= |s| && n >= 8
    ensures var cut := Cut(s, at + TAG_HDR_LEN, 8); var r := SetLength(cut, n - 8);
      && FromBe16(cut[LEN_AT], cut[LEN_AT + 1]) == n && r[..LEN_AT] == s[..LEN_AT]
      && Holds(Patch(r, at + 2, |t.data| - 8), f')
  {
    var front, back := Front(a, t), t.data[8..] + b;
    hide Holds, Cut, SetLength, Patch, FromBe16, Front;
    CutBytes(s, front, t.data[..8], back, at + TAG_HDR_LEN, 8, n - 8);
    PatchHolds(SetLength(Cut(s, at + TAG_HDR_LEN, 8), n - 8), front + back, |a| + 2, |t.data| - 8);
  }

  /** The same for a payload front + t + back of which t is cut out. */
  lemma CutBytes(s: seq<Byte>, front: seq<Byte>, t: seq<Byte>, back: seq<Byte>, at: nat, n: nat, left: nat)
    requires Holds(s, front + t + back)
    requires at == TAG_AT + |front| && n == |t| && left == |front| + |back|
    ensures at + n <= |s|
    ensures var cut := Cut(s, at, n); var r := SetLength(cut, left);
      && FromBe16(cut[LEN_AT], cut[LEN_AT + 1]) == left + n && r[..LEN_AT] == s[..LEN_AT] && Holds(r, front + back)
  {
    CutFront(s, front + t + back, at, n);
    hide Cut, SetLength, FromBe16;
    CutHolds(s, front, t, back);
  }

  /** A relay tag put before the rest is the tag that was meant on a big-endian host only: elsewhere the length field
      alone tells that it is not. */
  lemma InsertedOnly(s: seq<Byte>, tag: Tag, rest: seq<Tag>, bigEndian: bool, behind: seq<Byte>)
    requires tag.Valid() && ValidTags(rest) && 8 <= |tag.data| && |tag.data| - 8 + 12 <= TAG_BUF && |behind| >= TWO16
    requires RoomAsked(bigEndian, |tag.data|) <= |Bytes(tag)| + |behind|
    requires Holds(s, Copied(tag, behind, RoomAsked(bigEndian, |tag.data|)) + Flat(rest))
    ensures Carries(s, [tag] + rest) <==> bigEndian
  {
    hide Flat, Bytes, Copied, Holds;
    FlatCons(tag, rest);
    RoomIsSize(bigEndian, |tag.data| - 8);
    if bigEndian {
      CopiedWhole(tag, behind);
    } else if Carries(s, [tag] + rest) {
      OneLength(s, Copied(tag, behind, RoomAsked(bigEndian, |tag.data|)) + Flat(rest), Flat([tag] + rest));
    }
  }

  lemma OursHasTag(ts: seq<Tag>)
    ensures Ours(ts) ==> First(ts, PTT_RELAY_SID) < |ts|
  {
  }

  lemma StripIs(ts: seq<Tag>)
    requires Ours(ts)
    ensures var i := First(ts, PTT_RELAY_SID);
      && i < |ts| && |ts[i].data| >= 8
      && Strip(ts).1 == if |ts[i].data| > 8 then Shrunk(ts, i, 8) else Without(ts, i)
  {
  }

  class Frame {
    const buf: array<Byte>
    var len: nat

    ghost predicate Valid()
      reads this
    {
      TAG_AT <= len <= buf.Length < TWO16
    }

    ghost function Live(): (s: seq<Byte>)
      requires Valid()
      reads this, buf
    {
      buf[..len]
    }

    /** memmove. */
    method Move(dst: nat, src: nat, n: nat)
      requires dst + n <= buf.Length && src + n <= buf.Length
      modifies buf
      ensures buf[..] == old(Blit(buf[..], dst, buf[src..src + n]))
    {
      forall k | 0 <= k < n { buf[dst + k] := buf[src + k]; }
    }

    /** memcpy from another buffer. */
    method Copy(dst: nat, data: seq<Byte>)
      requires dst + |data| <= buf.Length
      modifies buf
      ensures buf[..] == old(Blit(buf[..], dst, data))
    {
      forall k | 0 <= k < |data| { buf[dst + k] := data[k]; }
    }

    /** __nat25_find_pppoe_tag: where the first tag of a kind starts, or 0. */
    method FindTag(kind: U16, ghost ts: seq<Tag>) returns (at: nat)
      requires Valid() && Carries(Live(), ts)
      ensures var i := First(ts, kind); at == if i < |ts| then TAG_AT + |Flat(ts[..i])| else 0
    {
      hide Flat, Bytes;
      var cur := TAG_AT;
      ghost var i := 0;
      assert ts[..0] == [] && Flat([]) == [] by { FlatNone(); }
      var total := FromBe16(buf[LEN_AT], buf[LEN_AT + 1]);
      while cur - TAG_AT < total
        invariant i <= |ts| && cur == TAG_AT + |Flat(ts[..i])|
        invariant First(ts, kind) == FirstFrom(ts, kind, i)
        decreases |ts| - i
      {
        Remaining(ts, i);
        Cursor(Live(), ts, i);
        var tagType := FromBe16(buf[cur], buf[cur + 1]);
        var tagLen := FromBe16(buf[cur + 2], buf[cur + 3]);
        if tagType == kind { return cur; }
        cur := cur + TAG_HDR_LEN + tagLen;
        i := i + 1;
      }
      Remaining(ts, i);
      at := 0;
    }

    /** skb_pull_and_merge: closes the gap of n bytes at a position, or refuses. */
    method PullAndMerge(at: nat, n: nat) returns (ok: bool)
      requires Valid() && (at + n <= len ==> len - n >= TAG_AT)
      modifies `len, buf
      ensures Valid() && ok == (at + n <= old(len))
      ensures Live() == if ok then Cut(old(Live()), at, n) else old(Live())
    {
      ok := at + n <= len;
      if ok {
        Move(at, at + n, len - at - n);
        assert buf[..at] == old(buf[..at]) == old(Live())[..at];
        assert buf[at..len - n] == old(Live())[at + n..];
        len := len - n;
        assert Live() == buf[..at] + buf[at..len];
      }
    }

    /** ph->length = htons(n). */
    method WriteLength(n: U16)
      requires Valid()
      modifies buf
      ensures Valid() && Live() == SetLength(old(Live()), n)
      ensures buf[..] == old(Blit(buf[..], LEN_AT, Be16(n)))
    {
      buf[LEN_AT], buf[LEN_AT + 1] := n / 256, n % 256;
    }

    /** __nat25_add_pppoe_tag: -1 when there is not the room it asks for, and then the frame is as it was. The room is
        also how many bytes it copies, from the tag and from what lies behind it in memory. */
    method AddTag(tag: Tag, bigEndian: bool, behind: seq<Byte>, ghost f: seq<Byte>) returns (r: int)
      requires Valid() && Holds(Live(), f) && tag.Valid()
      requires RoomAsked(bigEndian, |tag.data|) <= |Bytes(tag)| + |behind|
      modifies `len, buf
      ensures Valid() && r >= -1 && (r == -1 <==> old(buf.Length - len) < RoomAsked(bigEndian, |tag.data|))
      ensures r == -1 ==> Live() == old(Live())
      ensures r != -1 ==> Holds(Live(), Copied(tag, behind, RoomAsked(bigEndian, |tag.data|)) + f)
      ensures Live()[..LEN_AT] == old(Live())[..LEN_AT]
    {
      hide Blit, Holds, Bytes, SetLength, Be16, Copied;
      var dataLen := HostOrder(bigEndian, |tag.data|) + TAG_HDR_LEN;
      if buf.Length - len < dataLen { return -1; }
      Payload(buf[..], len, f);
      var n := FromBe16(buf[LEN_AT], buf[LEN_AT + 1]);
      Prepend(Copied(tag, behind, dataLen), n, f);
      r := dataLen;
    }

    /** Moves the n bytes of payload up, corrects the length and writes the new bytes in front. */
    method Prepend(bytes: seq<Byte>, n: U16, ghost f: seq<Byte>)
      requires Valid() && len + |bytes| <= buf.Length && TAG_AT + n <= len && n + |bytes| < TWO16
      requires n == |f| && buf[TAG_AT..TAG_AT + n] == f
      modifies `len, buf
      ensures Valid() && Holds(Live(), bytes + f) && Live()[..LEN_AT] == old(Live())[..LEN_AT]
    {
      hide Blit, Holds, SetLength, Be16;
      Prepended(buf[..], len, bytes, f);
      len := len + |bytes|;
      Move(TAG_AT + |bytes|, TAG_AT, n);
      WriteLength(n + |bytes|);
      Copy(TAG_AT, bytes);
    }

    /** Deletes tag i, n bytes at a position, and shortens the length field. */
    method DropTag(at: nat, n: nat, ghost ts: seq<Tag>, ghost i: nat)
      requires Valid() && Carries(Live(), ts) && i < |ts|
      requires at == TAG_AT + |Flat(ts[..i])| && n == TAG_HDR_LEN + |ts[i].data|
      modifies `len, buf
      ensures Valid() && len == old(len) - n
      ensures Carries(Live(), Without(ts, i)) && Live()[..LEN_AT] == old(Live())[..LEN_AT]
    {
      CutTag(Live(), ts, i);
      hide Flat, Holds, Cut, SetLength, Without;
      var _ := PullAndMerge(at, n);
      assert FromBe16(buf[LEN_AT], buf[LEN_AT + 1]) == FromBe16(Live()[LEN_AT], Live()[LEN_AT + 1]);
      WriteLength(FromBe16(buf[LEN_AT], buf[LEN_AT + 1]) - n);
    }

    method Readdress(mac: Mac, ghost ts: seq<Tag>)
      requires Valid() && Carries(Live(), ts)
      modifies buf
      ensures Valid() && Carries(Live(), ts)
      ensures Live()[..ETH_ALEN] == mac && Live()[ETH_ALEN..] == old(Live())[ETH_ALEN..]
    {
      hide Flat;
      Copy(0, mac);
      ghost var n := TAG_AT + |Flat(ts)|;
      assert Live()[ETH_ALEN..] == buf[..][ETH_ALEN..len] == old(buf[..])[ETH_ALEN..len];
      assert Live()[TAG_AT..n] == Live()[ETH_ALEN..][TAG_AT - ETH_ALEN..n - ETH_ALEN];
    }

    /** Deletes the first n bytes of tag i's data and corrects both length fields. */
    method ShrinkTag(at: nat, tagLen: U16, ghost ts: seq<Tag>, ghost i: nat)
      requires Valid() && Carries(Live(), ts) && i < |ts|
      requires at == TAG_AT + |Flat(ts[..i])| && tagLen == |ts[i].data| && tagLen >= 8
      modifies `len, buf
      ensures Valid() && Carries(Live(), Shrunk(ts, i, 8)) && Live()[..LEN_AT] == old(Live())[..LEN_AT]
    {
      hide Flat, Bytes;
      CutData(Live(), ts, i, at, |Flat(ts)|);
      hide Carries, SetLength, Cut, Shrunk;
      var _ := PullAndMerge(at + TAG_HDR_LEN, 8);
      assert FromBe16(buf[LEN_AT], buf[LEN_AT + 1]) == FromBe16(Live()[LEN_AT], Live()[LEN_AT + 1]);
      WriteLength(FromBe16(buf[LEN_AT], buf[LEN_AT + 1]) - 8);
      ghost var mid := Live();
      buf[at + 2], buf[at + 3] := (tagLen - 8) / 256, (tagLen - 8) % 256;
      assert Live() == Patch(mid, at + 2, tagLen - 8);
    }

    /** Copies an earlier relay tag's data and deletes the tag; not ok, and nothing done, when it is too long. */
    method TakeRelay(ghost ts: seq<Tag>) returns (ok: bool, held: seq<Byte>)
      requires Valid() && Carries(Live(), ts)
      modifies `len, buf
      ensures Valid() && ok == !TooLong(ts)
      ensures !ok ==> Live() == old(Live())
      ensures ok ==> held == OldData(ts) && len == old(len) - Freed(ts)
      ensures ok ==> Carries(Live(), Without(ts, First(ts, PTT_RELAY_SID))) && Live()[..LEN_AT] == old(Live())[..LEN_AT]
    {
      hide Flat, Bytes, SetLength, FirstFrom, Holds;
      ghost var i := First(ts, PTT_RELAY_SID);
      ok, held := true, [];
      var at := FindTag(PTT_RELAY_SID, ts);
      if at > 0 {
        Cursor(Live(), ts, i);
        var heldLen := FromBe16(buf[at + 2], buf[at + 3]);
        if heldLen + TAG_HDR_LEN + MAGIC_CODE_LEN + RTL_RELAY_TAG_LEN > TAG_BUF { return false, []; }
        held := buf[at + TAG_HDR_LEN..at + TAG_HDR_LEN + heldLen];
        FrontSlice(buf[..], len, at + TAG_HDR_LEN, at + TAG_HDR_LEN + heldLen);
        assert buf[..][..len] == Live() && held == OldData(ts);
        DropTag(at, TAG_HDR_LEN + heldLen, ts, i);
      }
    }

    /** A PADI or PADR frame on its way to the air. A relay tag that leaves no room in the driver's buffer stops it
        at once; a frame with too little room behind it loses the relay tag it had. On a little-endian host a frame
        with enough room is passed on, but not with the relay tag it should have. */
    method InsertRelay(bigEndian: bool, behind: seq<Byte>, ghost ts: seq<Tag>) returns (r: int)
      requires Valid() && Carries(Live(), ts) && |behind| >= TWO16
      modifies `len, buf
      ensures Valid() && (r == 0 || r == -1)
      ensures r == 0 <==> old(Live()[15]) in {0x09, 0x19} && !TooLong(ts)
                          && RoomAsked(bigEndian, 8 + |OldData(ts)|) <= old(buf.Length - len) + Freed(ts)
      ensures r == 0 ==> (Carries(Live(), Insert(ts, old(Live()[ETH_ALEN..2 * ETH_ALEN]))) <==> bigEndian)
      ensures r == -1 ==> Live() == old(Live()) || Carries(Live(), Without(ts, First(ts, PTT_RELAY_SID)))
      ensures r == -1 && (old(Live()[15]) !in {0x09, 0x19} || TooLong(ts)) ==> Live() == old(Live())
      ensures Live()[..LEN_AT] == old(Live()[..LEN_AT])
    {
      hide Flat, Bytes, Holds, Cut, SetLength, Copied, HostOrder;
      if buf[CODE_AT] != PADI_CODE && buf[CODE_AT] != PADR_CODE { return -1; }
      var ok, held := TakeRelay(ts);
      if !ok { return -1; }
      ghost var rest := Without(ts, First(ts, PTT_RELAY_SID));
      FrontSlice(buf[..], len, ETH_ALEN, 2 * ETH_ALEN);
      FrontSlice(Live(), LEN_AT, ETH_ALEN, 2 * ETH_ALEN);
      FrontSlice(old(Live()), LEN_AT, ETH_ALEN, 2 * ETH_ALEN);
      assert buf[..][..len] == Live();
      var tag := RelayTag(buf[ETH_ALEN..2 * ETH_ALEN], held);
      ghost var mid := Live();
      var added := AddTag(tag, bigEndian, behind, Flat(rest));
      assert added < 0 ==> Live() == mid;
      if added >= 0 { InsertedOnly(Live(), tag, rest, bigEndian, behind); }
      r := if added < 0 then -1 else 0;
    }

    /** Where the driver's own relay tag is, and how long its data are; 0 when the first relay tag is not the
        driver's. */
    method FindOurs(ghost ts: seq<Tag>) returns (at: nat, tagLen: nat)
      requires Valid() && Carries(Live(), ts)
      ensures at > 0 <==> Ours(ts)
      ensures Ours(ts) ==> var i := First(ts, PTT_RELAY_SID);
        && at == TAG_AT + |Flat(ts[..i])| && tagLen == |ts[i].data| && at + 12 <= len
        && buf[at + 6..at + 12] == Strip(ts).0
    {
      hide Flat, Bytes, Holds, First, Ours;
      OursHasTag(ts);
      tagLen := 0;
      at := FindTag(PTT_RELAY_SID, ts);
      if at == 0 { return; }
      Cursor(Live(), ts, First(ts, PTT_RELAY_SID));
      OursInBytes(Live(), ts);
      tagLen := FromBe16(buf[at + 2], buf[at + 3]);
      if tagLen < MAGIC_CODE_LEN + RTL_RELAY_TAG_LEN { return 0, 0; }
      if FromBe16(buf[at + 4], buf[at + 5]) != MAGIC_CODE { return 0, 0; }
      FrontSlice(buf[..], len, at + 6, at + 12);
      assert buf[..][..len] == Live();
    }

    /** A PADO or PADS frame on its way back: readdressed to the client named in the relay tag, and the driver's part
        of that tag taken out; refused untouched unless the first relay tag is the driver's. */
    method StripRelay(ghost ts: seq<Tag>) returns (r: int)
      requires Valid() && Carries(Live(), ts) && buf[15] in {0x07, 0x65}
      modifies `len, buf
      ensures Valid() && r == if Ours(ts) then 0 else -1
      ensures r == -1 ==> Live() == old(Live())
      ensures r == 0 ==> Carries(Live(), Strip(ts).1) && Live()[..ETH_ALEN] == Strip(ts).0
      ensures Live()[ETH_ALEN..LEN_AT] == old(Live()[ETH_ALEN..LEN_AT])
    {
      hide Flat, Bytes, Holds, Cut, SetLength, First, Ours, Strip;
      ghost var i := First(ts, PTT_RELAY_SID);
      var at, tagLen := FindOurs(ts);
      if at == 0 { return -1; }
      StripIs(ts);
      Readdress(buf[at + 6..at + 12], ts);
      ghost var mid := Live();
      assert mid[ETH_ALEN..LEN_AT] == mid[ETH_ALEN..][..LEN_AT - ETH_ALEN];
      if tagLen > MAGIC_CODE_LEN + RTL_RELAY_TAG_LEN {
        ShrinkTag(at, tagLen, ts, i);
      } else {
        DropTag(at, TAG_HDR_LEN + tagLen, ts, i);
      }
      Prefixes(Live(), mid, ETH_ALEN, LEN_AT);
      r := 0;
    }
  }
}
