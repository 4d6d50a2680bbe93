/** A POSIX ACL as the extended attribute it is stored in: a little-endian version, then eight
    little-endian bytes for each entry. */
module PosixXattr {
  import opened Acl
  import opened Options
  import opened PosixAcl

  type Byte = n: int | 0 <= n < 256

  const VERSION: nat := 2
  const UNDEFINED_ID: nat := 0xFFFF_FFFF
  const HEADER: nat := 4
  const ENTRY: nat := 8

  // ----- numbers ------------------------------------------------------------------------------

  function Le16(n: nat): seq<Byte>
    requires n < 0x1_0000
  {
    [n % 256, n / 256]
  }

  function UnLe16(b: seq<Byte>): (n: nat)
    requires |b| == 2
    ensures n < 0x1_0000
  {
    var lo: int, hi: int := b[0], b[1];
    lo + 256 * hi
  }

  function Le32(n: nat): seq<Byte>
    requires n < 0x1_0000_0000
  {
    Le16(n % 0x1_0000) + Le16(n / 0x1_0000)
  }

  function UnLe32(b: seq<Byte>): (n: nat)
    requires |b| == 4
    ensures n < 0x1_0000_0000
  {
    UnLe16(b[..2]) + 0x1_0000 * UnLe16(b[2..])
  }

  lemma Le16Inverse(n: nat, b: seq<Byte>)
    requires n < 0x1_0000 && |b| == 2
    ensures UnLe16(Le16(n)) == n && Le16(UnLe16(b)) == b
  {}

  lemma Halves(lo: nat, hi: nat)
    requires lo < 0x1_0000 && hi < 0x1_0000
    ensures (lo + 0x1_0000 * hi) % 0x1_0000 == lo && (lo + 0x1_0000 * hi) / 0x1_0000 == hi
  {}

  lemma Le32Of(b: seq<Byte>)
    requires |b| == 4
    ensures Le32(UnLe32(b)) == b
  {
    Le16Inverse(0, b[..2]);
    Le16Inverse(0, b[2..]);
    Halves(UnLe16(b[..2]), UnLe16(b[2..]));
    assert b == b[..2] + b[2..];
  }

  lemma UnLe32Of(n: nat)
    requires n < 0x1_0000_0000
    ensures UnLe32(Le32(n)) == n
  {
    var lo, hi := n % 0x1_0000, n / 0x1_0000;
    Le16Inverse(lo, Le16(lo));
    Le16Inverse(hi, Le16(hi));
    assert Le32(n)[..2] == Le16(lo) && Le32(n)[2..] == Le16(hi);
  }

  lemma Le32Inverse(n: nat, b: seq<Byte>)
    requires n < 0x1_0000_0000 && |b| == 4
    ensures UnLe32(Le32(n)) == n && Le32(UnLe32(b)) == b
  {
    Le32Of(b);
    UnLe32Of(n);
  }

  // ----- one entry ----------------------------------------------------------------------------

  function TagCode(t: Tag): nat {
    match t
    case UserObj => 0x01
    case User => 0x02
    case GroupObj => 0x04
    case Group => 0x08
    case MaskTag => 0x10
    case Other => 0x20
  }

  function TagOf(n: nat): Option<Tag> {
    if n == 0x01 then Some(UserObj) else if n == 0x02 then Some(User)
    else if n == 0x04 then Some(GroupObj) else if n == 0x08 then Some(Group)
    else if n == 0x10 then Some(MaskTag) else if n == 0x20 then Some(Other) else None
  }

  function PermCode(p: Perms): nat {
    (if R in p then 4 else 0) + (if W in p then 2 else 0) + (if X in p then 1 else 0)
  }

  function PermsOf(n: nat): Perms
    requires n < 8
  {
    (if n / 4 == 1 then {R} else {}) + (if n / 2 % 2 == 1 then {W} else {}) + (if n % 2 == 1 then {X} else {})
  }

  predicate HasId(t: Tag) {
    t == User || t == Group
  }

  /** An entry that can be stored: ids are 32 bits, and only named entries have one. */
  predicate Storable(e: Entry) {
    if HasId(e.tag) then e.id < 0x1_0000_0000 else e.id == 0
  }

  function EntryBytes(e: Entry): (b: seq<Byte>)
    ensures |b| == ENTRY
  {
    Le16(TagCode(e.tag)) + Le16(PermCode(e.perms))
    + Le32(if HasId(e.tag) then e.id % 0x1_0000_0000 else UNDEFINED_ID)
  }

  /** The entry in eight bytes: refused if the tag is none of the six or the perms are not three
      bits; the id of an entry that has none is not looked at. */
  function EntryOf(b: seq<Byte>): Option<Entry>
    requires |b| == ENTRY
  {
    var tag, perm := TagOf(UnLe16(b[..2])), UnLe16(b[2..4]);
    if tag.None? || perm >= 8 then None
    else Some(Entry(tag.value, if HasId(tag.value) then UnLe32(b[4..]) else 0, PermsOf(perm)))
  }

  lemma PermInverse(p: Perms, n: nat)
    requires n < 8
    ensures PermCode(p) < 8 && PermsOf(PermCode(p)) == p && PermCode(PermsOf(n)) == n
  {
    forall x: Perm ensures x in PermsOf(PermCode(p)) <==> x in p {
      match x
      case R =>
      case W =>
      case X =>
    }
  }

  lemma EntryRoundTrip(e: Entry)
    requires Storable(e)
    ensures EntryOf(EntryBytes(e)) == Some(e)
  {
    var b := EntryBytes(e);
    var id := if HasId(e.tag) then e.id else UNDEFINED_ID;
    assert b[..2] == Le16(TagCode(e.tag)) && b[2..4] == Le16(PermCode(e.perms)) && b[4..] == Le32(id);
    Le16Inverse(TagCode(e.tag), b[..2]);
    PermInverse(e.perms, 0);
    Le16Inverse(PermCode(e.perms), b[2..4]);
    Le32Inverse(id, b[4..]);
  }

  /** Eight bytes are what their entry is stored as, iff an entry without an id says so. */
  lemma EntryBack(b: seq<Byte>)
    requires |b| == ENTRY && EntryOf(b).Some?
    ensures Storable(EntryOf(b).value)
    ensures EntryBytes(EntryOf(b).value) == b <==> HasId(EntryOf(b).value.tag) || UnLe32(b[4..]) == UNDEFINED_ID
  {
    var e := EntryOf(b).value;
    Le16Inverse(TagCode(e.tag), b[..2]);
    PermInverse({}, UnLe16(b[2..4]));
    Le16Inverse(0, b[2..4]);
    Le32Inverse(UNDEFINED_ID, b[4..]);
    assert b == b[..2] + b[2..4] + b[4..];
    assert EntryBytes(e)[4..] == Le32(if HasId(e.tag) then e.id else UNDEFINED_ID);
  }

  // ----- the whole attribute ---------------------------------------------------------------------

  ghost predicate AllStorable(es: seq<Entry>) {
    forall i :: 0 <= i < |es| ==> Storable(es[i])
  }

  /** posix_acl_2_xattr: what is stored. */
  function Body(es: seq<Entry>): (b: seq<Byte>)
    ensures |b| == ENTRY * |es|
  {
    if |es| == 0 then [] else EntryBytes(es[0]) + Body(es[1..])
  }

  function Stored(es: seq<Entry>): seq<Byte> {
    Le32(VERSION) + Body(es)
  }

  /** The layout of the Linux attribute: an entry is its tag, its perms as the digit of an octal mode, and its
      id, or all ones if it has none, each with its lowest byte first. */
  lemma EntryLayout(e: Entry)
    requires Storable(e)
    ensures var b := EntryBytes(e);
      && b[0] == (match e.tag case UserObj => 1 case User => 2 case GroupObj => 4 case Group => 8
                              case MaskTag => 16 case Other => 32)
      && b[2] == (if R in e.perms then 4 else 0) + (if W in e.perms then 2 else 0) + (if X in e.perms then 1 else 0)
      && b[1] == 0 && b[3] == 0
      && (if e.tag == User || e.tag == Group
          then (b[4] as int) + 256 * (b[5] as int) + 0x1_0000 * (b[6] as int) + 0x100_0000 * (b[7] as int) == e.id
          else b[4..] == [255, 255, 255, 255])
  {
    var b, id := EntryBytes(e), if HasId(e.tag) then e.id else UNDEFINED_ID;
    assert b[4..] == Le32(id);
    UnLe32Of(id);
    assert b[4] == Le32(id)[0] && b[5] == Le32(id)[1] && b[6] == Le32(id)[2] && b[7] == Le32(id)[3];
  }

  /** The version, which is 2, and the entries after it. */
  lemma Layout(es: seq<Entry>, i: nat)
    requires i < |es|
    ensures |Stored(es)| == 4 + 8 * |es| && Stored(es)[..4] == [2, 0, 0, 0]
    ensures Stored(es)[4 + 8 * i..12 + 8 * i] == EntryBytes(es[i])
  {
    BodyAt(es, i);
    assert Le32(VERSION) == [2, 0, 0, 0];
    assert Stored(es)[4..] == Body(es);
    assert Stored(es)[4..][8 * i..8 * i + 8] == Stored(es)[4 + 8 * i..12 + 8 * i];
  }

  lemma {:induction false} BodyAt(es: seq<Entry>, i: nat)
    requires i < |es|
    ensures Body(es)[8 * i..8 * i + 8] == EntryBytes(es[i])
  {
    if i > 0 {
      BodyAt(es[1..], i - 1);
      assert Body(es)[8..] == Body(es[1..]);
      assert Body(es)[8..][8 * (i - 1)..8 * (i - 1) + 8] == Body(es)[8 * i..8 * i + 8];
    }
  }

  /** The entries in the bytes, if each is one. */
  function EntriesIn(b: seq<Byte>): Option<seq<Entry>>
    requires |b| % ENTRY == 0
    decreases |b|
  {
    if |b| == 0 then Some([])
    else
      var first, rest := EntryOf(b[..ENTRY]), EntriesIn(b[ENTRY..]);
      if first.None? || rest.None? then None else Some([first.value] + rest.value)
  }

  /** xattr_2_posix_acl: what is read back; an attribute with no entries gives no ACL. */
  function Loaded(b: seq<Byte>): Option<seq<Entry>> {
    if |b| <= HEADER || (|b| - HEADER) % ENTRY != 0 || UnLe32(b[..HEADER]) != VERSION then None
    else EntriesIn(b[HEADER..])
  }

  lemma {:induction false} BodyRoundTrip(es: seq<Entry>)
    requires AllStorable(es)
    ensures EntriesIn(Body(es)) == Some(es)
  {
    if |es| != 0 {
      BodyRoundTrip(es[1..]);
      EntryRoundTrip(es[0]);
      assert Body(es)[..ENTRY] == EntryBytes(es[0]) && Body(es)[ENTRY..] == Body(es[1..]);
      assert es == [es[0]] + es[1..];
    }
  }

  /** What is stored is read back, for every ACL that has an entry. */
  lemma RoundTrip(es: seq<Entry>)
    requires AllStorable(es) && es != []
    ensures Loaded(Stored(es)) == Some(es)
  {
    BodyRoundTrip(es);
    Le32Inverse(VERSION, Le32(VERSION));
    assert Stored(es)[..HEADER] == Le32(VERSION) && Stored(es)[HEADER..] == Body(es);
  }

  /** Every entry without an id has the id that says so. */
  ghost predicate Canonical(b: seq<Byte>)
    requires |b| % ENTRY == 0
    decreases |b|
  {
    |b| != 0 ==>
      && (EntryOf(b[..ENTRY]).Some? && !HasId(EntryOf(b[..ENTRY]).value.tag) ==>
            UnLe32(b[..ENTRY][4..]) == UNDEFINED_ID)
      && Canonical(b[ENTRY..])
  }

  lemma {:induction false} BodyBack(b: seq<Byte>)
    requires |b| % ENTRY == 0 && EntriesIn(b).Some?
    ensures AllStorable(EntriesIn(b).value)
    ensures Body(EntriesIn(b).value) == b <==> Canonical(b)
    decreases |b|
  {
    if |b| != 0 {
      var es := EntriesIn(b).value;
      BodyBack(b[ENTRY..]);
      EntryBack(b[..ENTRY]);
      assert es[1..] == EntriesIn(b[ENTRY..]).value;
      assert b == b[..ENTRY] + b[ENTRY..];
      assert Body(es)[..ENTRY] == EntryBytes(es[0]) && Body(es)[ENTRY..] == Body(es[1..]);
    }
  }

  /** What is read is what would be stored again, iff it was stored in the usual form. */
  lemma ReadIsStored(b: seq<Byte>)
    requires Loaded(b).Some?
    ensures AllStorable(Loaded(b).value)
    ensures Stored(Loaded(b).value) == b <==> Canonical(b[HEADER..])
  {
    BodyBack(b[HEADER..]);
    Le32Inverse(VERSION, b[..HEADER]);
    assert b == b[..HEADER] + b[HEADER..];
    var s := Stored(Loaded(b).value);
    assert s[HEADER..] == Body(Loaded(b).value);
  }

  // ----- the two functions, as they work ----------------------------------------------------------

  method PutBytes(buf: array<Byte>, at: nat, b: seq<Byte>)
    requires at + |b| <= buf.Length
    modifies buf
    ensures buf[..at + |b|] == old(buf[..at]) + b
    ensures buf[at + |b|..] == old(buf[at + |b|..])
  {
    for i := 0 to |b|
      invariant buf[..at + i] == old(buf[..at]) + b[..i]
      invariant buf[at + i..] == old(buf[at + i..])
    {
      buf[at + i] := b[i];
    }
    assert b[..|b|] == b;
  }

  /** The bytes of the first `n` entries, one entry at a time. */
  lemma {:induction false} BodyNext(es: seq<Entry>, i: nat)
    requires i < |es|
    ensures Body(es[..i + 1]) == Body(es[..i]) + EntryBytes(es[i])
  {
    if i == 0 {
      BodyOne(es[..1], es[0]);
    } else {
      BodyNext(es[1..], i - 1);
      assert es[..i + 1][1..] == es[1..][..i] && es[..i][1..] == es[1..][..i - 1];
    }
  }

  lemma BodyOne(es: seq<Entry>, e: Entry)
    requires |es| == 1 && es[0] == e
    ensures Body(es) == EntryBytes(e)
  {
    assert es[1..] == [];
  }

  /** The loop of posix_acl_2_xattr. */
  method PutEntries(es: seq<Entry>, buf: array<Byte>)
    requires buf.Length >= HEADER + ENTRY * |es|
    modifies buf
    ensures buf[..HEADER + ENTRY * |es|] == old(buf[..HEADER]) + Body(es)
    ensures buf[HEADER + ENTRY * |es|..] == old(buf[HEADER + ENTRY * |es|..])
  {
    for i := 0 to |es|
      invariant buf[..HEADER + ENTRY * i] == old(buf[..HEADER]) + Body(es[..i])
      invariant buf[HEADER + ENTRY * i..] == old(buf[HEADER + ENTRY * i..])
    {
      var at := HEADER + ENTRY * i;
      ghost var before := buf[at..];
      PutOne(es[i], buf, at);
      assert buf[at + ENTRY..] == before[ENTRY..];
      BodyNext(es, i);
    }
    assert es[..|es|] == es;
  }

  method PutOne(e: Entry, buf: array<Byte>, at: nat)
    requires at + ENTRY <= buf.Length
    modifies buf
    ensures buf[..at + ENTRY] == old(buf[..at]) + EntryBytes(e)
    ensures buf[at + ENTRY..] == old(buf[at..])[ENTRY..]
  {
    PutBytes(buf, at, EntryBytes(e));
  }

  /** posix_acl_2_xattr; without a buffer it says how much room is needed. */
  method ToXattr(es: seq<Entry>, buf: array?<Byte>) returns (size: int)
    modifies buf
    ensures buf == null ==> size == HEADER + ENTRY * |es|
    ensures buf != null && buf.Length < HEADER + ENTRY * |es| ==> size == -1 && buf[..] == old(buf[..])
    ensures buf != null && buf.Length >= HEADER + ENTRY * |es| ==>
      && size == HEADER + ENTRY * |es| && buf[..size] == Stored(es)
      && buf[size..] == old(buf[HEADER + ENTRY * |es|..])
  {
    var needed := HEADER + ENTRY * |es|;
    if buf == null {
      return needed;
    }
    if needed > buf.Length {
      return -1;
    }
    PutBytes(buf, 0, Le32(VERSION));
    assert buf[..HEADER] == Le32(VERSION);
    PutEntries(es, buf);
    return needed;
  }

  /** xattr_2_posix_acl. */
  method FromXattr(b: seq<Byte>) returns (acl: Option<seq<Entry>>)
    ensures acl == Loaded(b)
  {
    if |b| < HEADER || (|b| - HEADER) % ENTRY != 0 {
      return None;
    }
    var count := (|b| - HEADER) / ENTRY;
    if count == 0 {
      return None;
    }
    if UnLe32(b[..HEADER]) != VERSION {
      return None;
    }
    var es: seq<Entry> := [];
    ghost var body := b[HEADER..];
    assert body[ENTRY * 0..] == body;
    PrependNothing(EntriesIn(body));
    for i := 0 to count
      invariant |es| == i && ENTRY * i <= |body| && (|body| - ENTRY * i) % ENTRY == 0
      invariant Loaded(b) == Prepend(es, EntriesIn(body[ENTRY * i..]))
    {
      var e := EntryOf(b[HEADER + ENTRY * i..HEADER + ENTRY * i + ENTRY]);
      assert body[ENTRY * i..][..ENTRY] == b[HEADER + ENTRY * i..HEADER + ENTRY * i + ENTRY];
      assert body[ENTRY * i..][ENTRY..] == body[ENTRY * (i + 1)..];
      if e.None? {
        return None;
      }
      PrependNext(es, e.value, EntriesIn(body[ENTRY * (i + 1)..]));
      es := es + [e.value];
    }
    assert body[ENTRY * count..] == [] && es + [] == es;
    return Some(es);
  }

  function Prepend(es: seq<Entry>, rest: Option<seq<Entry>>): Option<seq<Entry>> {
    if rest.None? then None else Some(es + rest.value)
  }

  lemma PrependNothing(rest: Option<seq<Entry>>)
    ensures Prepend([], rest) == rest
  {
    if rest.Some? {
      assert [] + rest.value == rest.value;
    }
  }

  lemma PrependNext(es: seq<Entry>, e: Entry, rest: Option<seq<Entry>>)
    ensures Prepend(es, Prepend([e], rest)) == Prepend(es + [e], rest)
  {
    if rest.Some? {
      assert es + ([e] + rest.value) == es + [e] + rest.value;
    }
  }
}
