/** LISTXATTRS (section 8.4.3 of RFC 8276): a flat buffer of names, cut into pages of the names in
    the "user." namespace. */
module Xattrs {
  const PREFIX: string := "user."
  const PREFIX_LEN: nat := 5
  const WRAP: nat := 0x1_0000_0000

  datatype Status = NoError | TooSmall | BadCookie | ServerFault

  // ----- the names in the buffer ----------------------------------------------------------------

  /** strnlen of the name at `pos`. */
  function Length(buf: string, pos: nat): (n: nat)
    requires pos <= |buf|
    ensures pos + n <= |buf|
    decreases |buf| - pos
  {
    if pos == |buf| || buf[pos] == '\0' then 0 else 1 + Length(buf, pos + 1)
  }

  /** The name is "user." and something more. */
  predicate IsUser(buf: string, pos: nat)
    requires pos <= |buf|
  {
    Length(buf, pos) > PREFIX_LEN && buf[pos..pos + PREFIX_LEN] == PREFIX
  }

  function Stripped(buf: string, pos: nat): string
    requires pos <= |buf| && IsUser(buf, pos)
  {
    buf[pos + PREFIX_LEN..pos + Length(buf, pos)]
  }

  /** The names in the user namespace from `pos` on, without the prefix. */
  function Users(buf: string, pos: nat): seq<string>
    decreases |buf| - pos
  {
    if pos >= |buf| then []
    else (if IsUser(buf, pos) then [Stripped(buf, pos)] else []) + Users(buf, pos + Length(buf, pos) + 1)
  }

  // ----- a buffer of names ------------------------------------------------------------------------

  /** The names one after the other, each followed by a NUL, as listxattr gives them. */
  function BufferOf(names: seq<string>): string {
    if |names| == 0 then "" else names[0] + "\0" + BufferOf(names[1..])
  }

  /** The names of the form "user.x", as x. */
  function UserNames(names: seq<string>): seq<string> {
    if |names| == 0 then []
    else (if "user." < names[0] then [names[0][5..]] else []) + UserNames(names[1..])
  }

  lemma {:induction false} LengthOf(buf: string, pos: nat, n: nat)
    requires pos + n <= |buf| && (pos + n == |buf| || buf[pos + n] == '\0')
    requires forall i :: pos <= i < pos + n ==> buf[i] != '\0'
    ensures Length(buf, pos) == n
    decreases n
  {
    if n != 0 {
      LengthOf(buf, pos + 1, n - 1);
    }
  }

  lemma NameRead(buf: string, at: nat, name: string)
    requires at + |name| < |buf| && buf[at..at + |name|] == name && buf[at + |name|] == '\0' && '\0' !in name
    ensures Length(buf, at) == |name| && (IsUser(buf, at) <==> "user." < name)
    ensures IsUser(buf, at) ==> Stripped(buf, at) == name[5..]
  {
    forall i | at <= i < at + |name| ensures buf[i] != '\0' {
      assert name[i - at] == buf[i];
    }
    LengthOf(buf, at, |name|);
    if |name| > 5 {
      assert buf[at..at + 5] == name[..5];
      assert buf[at + 5..at + |name|] == name[5..];
    }
  }

  lemma FirstName(buf: string, at: nat, name: string, rest: string)
    requires at <= |buf| && buf[at..] == name + "\0" + rest
    ensures at + |name| < |buf| && buf[at..at + |name|] == name && buf[at + |name|] == '\0'
    ensures buf[at + |name| + 1..] == rest
  {
    var tail := buf[at..];
    assert tail[..|name|] == name && tail[|name|] == '\0' && tail[|name| + 1..] == rest;
  }

  /** From a buffer of any names without a NUL, in any order, the names read are exactly those that begin with
      "user." and something more, without that prefix. */
  lemma {:induction false} UsersOfNames(buf: string, at: nat, names: seq<string>)
    requires at <= |buf| && buf[at..] == BufferOf(names) && forall i :: 0 <= i < |names| ==> '\0' !in names[i]
    ensures Users(buf, at) == UserNames(names)
    decreases |names|
  {
    if |names| != 0 {
      FirstName(buf, at, names[0], BufferOf(names[1..]));
      NameRead(buf, at, names[0]);
      UsersOfNames(buf, at + |names[0]| + 1, names[1..]);
    }
  }

  method StrNLen(buf: string, pos: nat) returns (n: nat)
    requires pos <= |buf|
    ensures n == Length(buf, pos)
  {
    n := 0;
    while pos + n < |buf| && buf[pos + n] != '\0'
      invariant pos + n <= |buf| && Length(buf, pos) == n + Length(buf, pos + n)
      decreases |buf| - n
    {
      n := n + 1;
    }
  }

  // ----- how many names fit ------------------------------------------------------------------------

  /** The room a name takes, and the room taken after it, in a 32-bit counter. */
  function Cost(name: string): nat {
    4 + |name|
  }

  function PlusLength(bytes: nat, len: nat): nat {
    (bytes + 4 + len) % WRAP
  }

  function Plus(bytes: nat, name: string): nat {
    PlusLength(bytes, |name|)
  }

  /** How many names the code lets through, from number `j` on, starting from a count of `bytes`. */
  function Fitting(all: seq<string>, j: nat, bytes: nat, maxbytes: nat): (n: nat)
    requires j <= |all|
    ensures j + n <= |all|
    decreases |all| - j
  {
    if j == |all| || Plus(bytes, all[j]) > maxbytes then 0
    else 1 + Fitting(all, j + 1, Plus(bytes, all[j]), maxbytes)
  }

  /** One page of names: those from number `k` on that fit. */
  function Page(all: seq<string>, k: nat, maxbytes: nat): seq<string>
    requires k <= |all|
  {
    all[k..k + Fitting(all, k, 0, maxbytes)]
  }

  // ----- fsal_listxattr_helper -----------------------------------------------------------------------

  /** The length of the name at `pos`, and whether it is one of the user namespace. */
  method NameAt(buf: string, pos: nat) returns (len: nat, user: bool)
    requires pos < |buf|
    ensures len == Length(buf, pos) && user == IsUser(buf, pos)
  {
    len := StrNLen(buf, pos);
    user := len > PREFIX_LEN && buf[pos..pos + PREFIX_LEN] == PREFIX;
  }

  /** The names from `pos` on are those from number `j` on. */
  ghost predicate Aligned(buf: string, pos: nat, all: seq<string>, j: nat) {
    j <= |all| && Users(buf, pos) == all[j..]
  }

  lemma AlignedNext(buf: string, pos: nat, all: seq<string>, j: nat)
    requires pos < |buf| && Aligned(buf, pos, all, j)
    ensures !IsUser(buf, pos) ==> Aligned(buf, pos + Length(buf, pos) + 1, all, j)
    ensures IsUser(buf, pos) ==> j < |all| && all[j] == Stripped(buf, pos)
    ensures IsUser(buf, pos) ==> Aligned(buf, pos + Length(buf, pos) + 1, all, j + 1)
  {
    var rest := Users(buf, pos + Length(buf, pos) + 1);
    assert [] + rest == rest;
    if IsUser(buf, pos) {
      assert ([Stripped(buf, pos)] + rest)[0] == Stripped(buf, pos);
      assert ([Stripped(buf, pos)] + rest)[1..] == rest;
      assert all[j..][0] == all[j] && all[j..][1..] == all[j + 1..];
    }
  }

  lemma AlignedAtEnd(buf: string, pos: nat, all: seq<string>, j: nat)
    requires pos >= |buf| && Aligned(buf, pos, all, j)
    ensures j == |all|
  {}

  /** The first pass as it goes: the number of names let through, where the first of them is, the
      cookie and the room counted. */
  datatype Pass = Pass(count: nat, start: nat, cookie: nat, bytes: nat)

  /** It has seen `cookie` of the names, and let through all of them from number `k` on. */
  ghost predicate Passed(all: seq<string>, k: nat, maxbytes: nat, p: Pass) {
    && p.cookie <= |all|
    && (p.cookie <= k ==> p.count == 0 && p.bytes == 0)
    && (k <= p.cookie ==> p.count == p.cookie - k && p.bytes <= maxbytes
                          && Fitting(all, k, 0, maxbytes) == p.count + Fitting(all, p.cookie, p.bytes, maxbytes))
  }

  /** How it ends. */
  ghost predicate Counted(all: seq<string>, k: nat, maxbytes: nat, p: Pass) {
    && (k > |all| ==> p.count == 0 && p.bytes == 0 && p.cookie == |all|)
    && (k <= |all| ==>
          && p.count == Fitting(all, k, 0, maxbytes) && p.cookie == k + p.count
          && (p.bytes > maxbytes <==> p.cookie < |all|))
  }

  /** One turn of the first pass, at a name of the user namespace; it is over when the name is too
      much. */
  method CountName(pos: nat, len: nat, maxbytes: nat, k: nat, p: Pass, ghost all: seq<string>)
    returns (p': Pass, over: bool)
    requires Passed(all, k, maxbytes, p) && p.cookie < |all|
    requires len >= PREFIX_LEN && |all[p.cookie]| == len - PREFIX_LEN
    ensures over ==> Counted(all, k, maxbytes, p') && p'.count == p.count && p'.start == p.start
    ensures !over ==> Passed(all, k, maxbytes, p') && p'.cookie == p.cookie + 1
    ensures !over ==> if p.cookie < k then p'.count == 0
                      else p'.count == p.count + 1 && p'.start == if p.cookie == k then pos else p.start
  {
    var cookie := p.cookie + 1;
    if p.cookie < k {
      return p.(cookie := cookie), false;
    }
    var bytes := PlusLength(p.bytes, len - PREFIX_LEN);
    if bytes > maxbytes {
      cookie := cookie - 1;
      return p.(cookie := cookie, bytes := bytes), true;
    }
    return Pass(p.count + 1, if p.count == 0 then pos else p.start, cookie, bytes), false;
  }

  /** The first pass. */
  method CountPass(buf: string, maxbytes: nat, k: nat, ghost all: seq<string>) returns (p: Pass)
    requires all == Users(buf, 0)
    ensures Counted(all, k, maxbytes, p) && (p.count > 0 ==> Aligned(buf, p.start, all, k))
  {
    var pos, over := 0, false;
    p := Pass(0, 0, 0, 0);
    assert Aligned(buf, 0, all, 0);
    while pos < |buf|
      invariant Passed(all, k, maxbytes, p) && Aligned(buf, pos, all, p.cookie)
      invariant p.count > 0 ==> Aligned(buf, p.start, all, k)
      decreases |buf| - pos
    {
      var len, user := NameAt(buf, pos);
      AlignedNext(buf, pos, all, p.cookie);
      if user {
        p, over := CountName(pos, len, maxbytes, k, p, all);
        if over {
          return;
        }
      }
      pos := pos + len + 1;
    }
    AlignedAtEnd(buf, pos, all, p.cookie);
  }

  /** The second pass, from the first name that is wanted: it finds them all. */
  method CopyPass(buf: string, start: nat, count: nat, ghost all: seq<string>, ghost k: nat)
    returns (names: seq<string>)
    requires k + count <= |all| && Aligned(buf, start, all, k)
    ensures names == all[k..k + count]
  {
    names := [];
    var pos := start;
    while pos < |buf| && |names| < count
      invariant |names| <= count && names == all[k..k + |names|] && Aligned(buf, pos, all, k + |names|)
      decreases |buf| - pos
    {
      var len, user := NameAt(buf, pos);
      AlignedNext(buf, pos, all, k + |names|);
      if user {
        names := names + [buf[pos + PREFIX_LEN..pos + len]];
      }
      pos := pos + len + 1;
    }
    if pos >= |buf| {
      AlignedAtEnd(buf, pos, all, k + |names|);
    }
  }

  /** fsal_listxattr_helper, for any buffer, any limit and any cookie. The answer is a page of the
      names, with the cookie of the next page; the encoding error never happens. */
  method ListXattr(buf: string, maxbytes: nat, k: nat)
    returns (st: Status, cookie: nat, eof: bool, names: seq<string>)
    requires maxbytes < WRAP
    ensures var all := Users(buf, 0);
      && (k > |all| ==> st == BadCookie)
      && (k < |all| && Page(all, k, maxbytes) == [] ==> st == TooSmall)
      && (k == |all| || (k < |all| && Page(all, k, maxbytes) != []) ==>
            && st == NoError && names == Page(all, k, maxbytes) && cookie == k + |names|
            && (eof <==> cookie == |all|))
  {
    names := [];
    ghost var all := Users(buf, 0);
    var p := CountPass(buf, maxbytes, k, all);
    cookie := p.cookie;
    eof := p.bytes <= maxbytes;
    if p.count == 0 {
      if p.bytes > maxbytes {
        return TooSmall, cookie, eof, names;
      }
      if cookie < k {
        return BadCookie, cookie, eof, names;
      }
      return NoError, cookie, eof, names;
    }
    names := CopyPass(buf, p.start, p.count, all, k);
    if |names| != p.count {
      return ServerFault, cookie, eof, names;
    }
    return NoError, cookie, eof, names;
  }

  // ----- all the pages --------------------------------------------------------------------------------

  /** The names a client gets that asks for page after page with these limits, until one of them is
      the last or cannot be had. */
  function Pages(all: seq<string>, k: nat, limits: seq<nat>): seq<string>
    requires k <= |all|
    decreases |limits|
  {
    if |limits| == 0 then []
    else Page(all, k, limits[0]) + Pages(all, k + |Page(all, k, limits[0])|, limits[1..])
  }

  /** Page after page, the names come in order, each once, with none left out. */
  lemma {:induction false} PagesAreAPrefix(all: seq<string>, k: nat, limits: seq<nat>)
    requires k <= |all|
    ensures k + |Pages(all, k, limits)| <= |all| && Pages(all, k, limits) == all[k..k + |Pages(all, k, limits)|]
    decreases |limits|
  {
    if |limits| != 0 {
      PagesAreAPrefix(all, k + |Page(all, k, limits[0])|, limits[1..]);
    }
  }

  /** Each limit has room for the next name that is to come. */
  predicate RoomForNext(all: seq<string>, k: nat, limits: seq<nat>)
    requires k <= |all|
    decreases |limits|
  {
    |limits| != 0 && k < |all| ==>
      && Plus(0, all[k]) <= limits[0]
      && RoomForNext(all, k + |Page(all, k, limits[0])|, limits[1..])
  }

  /** A page with room for its first name has it. */
  lemma PageProgresses(all: seq<string>, k: nat, maxbytes: nat)
    requires k < |all| && Plus(0, all[k]) <= maxbytes
    ensures |Page(all, k, maxbytes)| >= 1 && Page(all, k, maxbytes)[0] == all[k]
  {}

  /** With enough pages, each with room for the next name, the client gets every name. */
  lemma {:induction false} PagesAreEverything(all: seq<string>, k: nat, limits: seq<nat>)
    requires k <= |all| && RoomForNext(all, k, limits) && |limits| >= |all| - k
    ensures Pages(all, k, limits) == all[k..]
    decreases |limits|
  {
    PagesAreAPrefix(all, k, limits);
    if k < |all| {
      PageProgresses(all, k, limits[0]);
      PagesAreEverything(all, k + |Page(all, k, limits[0])|, limits[1..]);
    }
  }

  /** A list of names on the wire: each as a 32-bit length and its characters. */
  function TotalCost(names: seq<string>): nat {
    4 * |names| + Characters(names)
  }

  function Characters(names: seq<string>): nat {
    if |names| == 0 then 0 else |names[0]| + Characters(names[1..])
  }

  /** The 32-bit counter cannot wrap round. */
  predicate NoWrap(names: seq<string>, maxbytes: nat) {
    forall i :: 0 <= i < |names| ==> maxbytes + Cost(names[i]) < WRAP
  }

  /** As long as the counter does not wrap, a page is the most names that fit the limit. */
  lemma {:induction false} FittingIsRoom(all: seq<string>, j: nat, bytes: nat, maxbytes: nat)
    requires j <= |all| && NoWrap(all, maxbytes) && bytes <= maxbytes
    ensures var n := Fitting(all, j, bytes, maxbytes);
      && bytes + TotalCost(all[j..j + n]) <= maxbytes
      && (j + n < |all| ==> bytes + TotalCost(all[j..j + n]) + 4 + |all[j + n]| > maxbytes)
    decreases |all| - j
  {
    if j < |all| && Plus(bytes, all[j]) <= maxbytes {
      FittingIsRoom(all, j + 1, Plus(bytes, all[j]), maxbytes);
      var n := Fitting(all, j, bytes, maxbytes);
      assert all[j..j + n][0] == all[j] && all[j..j + n][1..] == all[j + 1..j + n];
    }
  }
}
