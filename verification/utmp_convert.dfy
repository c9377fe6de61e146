/** The two converters on records in memory. */
module UtmpConvert {
  import opened Memory
  import opened CStrings
  import opened Utmp
  import opened UtmpCodec

  class UtmpRecord {
    const line: array<byte>
    const name: array<byte>
    const host: array<byte>
    var time: int

    ghost predicate Valid() {
      && line.Length == UT_LINESIZE && name.Length == UT_NAMESIZE && host.Length == UT_HOSTSIZE
      && line != name && line != host && name != host
    }

    ghost function View(): (u: Utmp)
      reads this, line, name, host
      ensures Valid() ==> u.Sized()
    {
      Utmp(line[..], name[..], host[..], time)
    }
  }

  class UtmpxRecord {
    var typ: UtType
    var pid: int
    const line: array<byte>
    const id: array<byte>
    const user: array<byte>
    const host: array<byte>
    var exit: (int, int)
    var session: int
    var sec: int
    var usec: int
    const addr: array<byte>

    ghost predicate Valid() {
      && line.Length == UTX_LINESIZE && id.Length == ID_SIZE
      && user.Length == UTX_NAMESIZE && host.Length == UTX_HOSTSIZE
      && addr.Length == ADDR_SIZE
      && line != id && line != user && line != host && line != addr && id != user && id != host && id != addr
      && user != host && user != addr && host != addr
    }

    ghost function View(): Utmpx
      reads this, line, id, user, host, addr
    {
      Utmpx(typ, pid, line[..], id[..], user[..], host[..], exit, session, sec, usec, addr[..])
    }

    /** memset (ux, '\\0', sizeof (struct utmpx)) */
    method Clear()
      requires Valid()
      modifies this, line, id, user, host, addr
      ensures View() == NO_ONE
    {
      typ, pid, exit, session, sec, usec := EMPTY, 0, (0, 0), 0, 0, 0;
      Fill(line);
      Fill(id);
      Fill(user);
      Fill(host);
      Fill(addr);
    }
  }

  method Fill(a: array<byte>)
    modifies a
    ensures a[..] == Zeros(a.Length)
  {
    forall i | 0 <= i < a.Length { a[i] := 0; }
  }

  /** strncpy; it must not run past the end of its source. */
  method CopyString(dst: array<byte>, off: nat, src: seq<byte>, n: nat)
    requires off + n <= dst.Length && (n <= |src| || |Cstr(src)| < |src|)
    modifies dst
    ensures dst[..] == Splice(old(dst[..]), off, Strncpy(src, n))
  {
    CstrIs(src);
    ghost var r := Strncpy(src, n);
    ghost var was := dst[..];
    var i := 0;
    while i < n && src[i] != 0
      invariant 0 <= i <= n && i <= |Cstr(src)|
      invariant forall j :: 0 <= j < i ==> dst[off + j] == r[j]
      invariant forall j :: 0 <= j < dst.Length && !(off <= j < off + i) ==> dst[j] == was[j]
    {
      assert i < |Cstr(src)| by { LongCstr(src, i + 1); }
      dst[off + i] := src[i];
      i := i + 1;
    }
    assert i == Min(n, |Cstr(src)|);
    while i < n
      invariant Min(n, |Cstr(src)|) <= i <= n
      invariant forall j :: 0 <= j < i ==> dst[off + j] == r[j]
      invariant forall j :: 0 <= j < dst.Length && !(off <= j < off + i) ==> dst[j] == was[j]
    {
      dst[off + i] := 0;
      i := i + 1;
    }
  }

  /** strlen of a string that ends in its field, and __strnlen of any. */
  method Strnlen(a: array<byte>) returns (n: nat)
    ensures n == |Cstr(a[..])|
  {
    CstrIs(a[..]);
    n := 0;
    while n < a.Length && a[n] != 0
      invariant 0 <= n <= |Cstr(a[..])|
    {
      LongCstr(a[..], n + 1);
      n := n + 1;
    }
  }

  // __utmpx_to_utmp

  lemma WholeField(b: seq<byte>, src: seq<byte>, n: nat)
    requires |b| == n
    ensures Splice(b, 0, Strncpy(src, n)) == Strncpy(src, n)
  {
  }

  /** A string literal ends with NUL. */
  lemma LiteralCopy(s: seq<byte>, n: nat)
    requires forall i :: 0 <= i < |s| ==> s[i] != 0
    ensures Cstr(s + [0]) == s && Strncpy(s + [0], n) == Strncpy(s, n)
  {
    CstrUpTo(s + [0], |s|);
    CstrUpTo(s, |s|);
  }

  method CopyLiteral(dst: array<byte>, s: seq<byte>)
    requires forall i :: 0 <= i < |s| ==> s[i] != 0
    modifies dst
    ensures dst[..] == Strncpy(s, dst.Length)
  {
    LiteralCopy(s, dst.Length);
    CopyString(dst, 0, s + [0], dst.Length);
    WholeField(old(dst[..]), s, dst.Length);
  }

  method CopyField(dst: array<byte>, src: seq<byte>)
    requires dst.Length <= |src|
    modifies dst
    ensures dst[..] == Strncpy(src, dst.Length)
  {
    CopyString(dst, 0, src, dst.Length);
    WholeField(old(dst[..]), src, dst.Length);
  }

  /** The line and the name. */
  method PutStrings(ux: UtmpxRecord, u: UtmpRecord)
    requires ux.Valid() && u.Valid() && ux.View().Sized() && !ux.typ.OTHER?
    requires {u.line, u.name, u.host} !! {ux.line, ux.id, ux.user, ux.host, ux.addr}
    modifies u.line, u.name
    ensures u.line[..] == LineFor(ux.View(), old(u.line[..])) && u.name[..] == NameFor(ux.View())
  {
    hide Strncpy, Cstr;
    var t := ux.typ;
    if t.EMPTY? { CopyLiteral(u.line, []); CopyLiteral(u.name, []); }
    else if t.RUN_LVL? { CopyLiteral(u.line, TILDE); CopyLiteral(u.name, RUNLEVEL); }
    else if t.BOOT_TIME? { CopyLiteral(u.line, TILDE); CopyLiteral(u.name, REBOOT); }
    else if t.NEW_TIME? { CopyLiteral(u.line, BRACE); CopyLiteral(u.name, DATE); }
    else if t.OLD_TIME? { CopyLiteral(u.line, BAR); CopyLiteral(u.name, DATE); }
    else if t.ACCOUNTING? { CopyLiteral(u.line, TILDE); CopyLiteral(u.name, ACCT); }
    else { PutProcessStrings(ux, u); }
  }

  method PutProcessLine(ux: UtmpxRecord, u: UtmpRecord)
    requires ux.Valid() && u.Valid() && ux.View().Sized() && ux.typ.Process()
    requires {u.line, u.name, u.host} !! {ux.line, ux.id, ux.user, ux.host, ux.addr}
    modifies u.line
    ensures u.line[..] == LineFor(ux.View(), old(u.line[..]))
  {
    hide Strncpy, Cstr;
    if ux.line[0] != 0 { CopyField(u.line, ux.line[..]); } else { CopyString(u.line, 0, ux.id[..], ID_SIZE); }
  }

  method PutProcessStrings(ux: UtmpxRecord, u: UtmpRecord)
    requires ux.Valid() && u.Valid() && ux.View().Sized() && ux.typ.Process()
    requires {u.line, u.name, u.host} !! {ux.line, ux.id, ux.user, ux.host, ux.addr}
    modifies u.line, u.name
    ensures u.line[..] == LineFor(ux.View(), old(u.line[..])) && u.name[..] == NameFor(ux.View())
  {
    hide Strncpy, Cstr, LineFor;
    PutProcessLine(ux, u);
    if ux.typ.INIT_PROCESS? { CopyLiteral(u.name, INIT); }
    else if ux.typ.LOGIN_PROCESS? { CopyLiteral(u.name, LOGIN); }
    else if ux.typ.USER_PROCESS? { CopyField(u.name, ux.user[..]); }
    else { CopyLiteral(u.name, []); }
  }

  /** strlen of the string in `a`; None if it runs past the end of `a`. */
  method Strlen(a: array<byte>) returns (n: Option<nat>)
    ensures n == if |Cstr(a[..])| < a.Length then Some(|Cstr(a[..])|) else None
  {
    CstrIs(a[..]);
    var len := Strnlen(a);
    n := if len < a.Length then Some(len) else None;
  }

  /** sprintf (buf, "%lu", n); false if it runs past the end of `buf`. */
  method PrintUnsigned(buf: array<byte>, n: nat) returns (ok: bool)
    modifies buf
    ensures ok <==> |Decimal(n)| < buf.Length
    ensures ok ==> Cstr(buf[..]) == Decimal(n)
  {
    hide Decimal;
    ValueDecimal(n);
    var digits := Decimal(n);
    var i := 0;
    while i < |digits|
      invariant 0 <= i <= |digits| && i <= buf.Length
      invariant forall j :: 0 <= j < i ==> buf[j] == digits[j]
    {
      if i == buf.Length { return false; }
      buf[i] := digits[i];
      i := i + 1;
    }
    if i == buf.Length { return false; }
    buf[i] := 0;
    CstrUpTo(buf[..], i);
    assert buf[..][..i] == digits;
    ok := true;
  }

  /** "Put the ut_pid at a hidden place where there is likely room." */
  method PutPid(pid: int, host: array<byte>) returns (overrun: bool)
    requires host.Length == UT_HOSTSIZE && -0x8000_0000 <= pid < 0x8000_0000
    modifies host
    ensures overrun <==> HidePid(old(host[..]), pid) == None
    ensures !overrun ==> Some(host[..]) == HidePid(old(host[..]), pid)
  {
    hide Strncpy, Cstr, Decimal;
    if pid != 0 {
      CstrIs(host[..]);
      var len := Strlen(host);
      if len == None { return true; }
      var room := UT_HOSTSIZE - len.value - 1;
      var buf := new byte[11];
      var ok := PrintUnsigned(buf, Unsigned(pid));
      if !ok { return true; }
      var n := Strnlen(buf);
      if n <= room {
        ValueDecimal(Unsigned(pid));
        SameCopy(buf[..], Decimal(Unsigned(pid)), room);
        CopyString(host, len.value + 1, buf[..], room);
        assert Splice(old(host[..]), len.value + 1, Strncpy(buf[..], room))
            == old(host[..])[..len.value + 1] + Strncpy(buf[..], room);
      }
    }
    overrun := false;
  }

  lemma SameCopy(buf: seq<byte>, s: seq<byte>, n: nat)
    requires Cstr(buf) == s && AllDigits(s)
    ensures Strncpy(buf, n) == Strncpy(s, n)
  {
    CstrUpTo(s, |s|);
  }

  datatype Status = Converted | UnknownType | Overran

  /** -1 is UnknownType.  What an overrun leaves behind is not said. */
  method ToUtmp(ux: UtmpxRecord, u: UtmpRecord) returns (r: Status)
    requires ux.Valid() && u.Valid() && ux.View().Sized()
    requires {u.line, u.name, u.host} !! {ux.line, ux.id, ux.user, ux.host, ux.addr}
    modifies u, u.line, u.name, u.host
    ensures r.Overran? <==> Encode(ux.View(), old(u.View())).Overrun?
    ensures r.Converted? ==> Encode(ux.View(), old(u.View())) == Written(u.View())
    ensures r.UnknownType? <==> ux.typ.OTHER?
    ensures r.UnknownType? ==> u.View() == old(u.View())
  {
    hide Strncpy, Cstr, HidePid;
    if ux.typ.OTHER? { return UnknownType; }
    PutStrings(ux, u);
    if ux.typ.EMPTY? { CopyLiteral(u.host, []); } else { CopyField(u.host, ux.host[..]); }
    u.time := ux.sec;
    var overrun := PutPid(ux.pid, u.host);
    r := if overrun then Overran else Converted;
  }

  // __utmp_to_utmpx

  /** strncpy of a field into a longer, zeroed one. */
  method CopyInto(dst: array<byte>, src: seq<byte>, n: nat)
    requires n <= dst.Length && n <= |src| && dst[..] == Zeros(dst.Length)
    modifies dst
    ensures dst[..] == Strncpy(src, n) + Zeros(dst.Length - n)
  {
    CopyString(dst, 0, src, n);
    assert Splice(Zeros(dst.Length), 0, Strncpy(src, n)) == Strncpy(src, n) + Zeros(dst.Length - n);
  }

  /** The literal is shorter than the field: the strings agree up to the size of the field exactly if they agree. */
  method Is(field: array<byte>, s: seq<byte>) returns (same: bool)
    requires |s| < field.Length && forall i :: 0 <= i < |s| ==> s[i] != 0
    ensures same <==> Cstr(field[..]) == s
  {
    CstrIs(field[..]);
    var n := Strnlen(field);
    same := field[..n] == s;
  }

  method FindType(u: UtmpRecord) returns (typ: Option<UtType>)
    requires u.Valid()
    ensures typ == TypeOf(u.View())
  {
    hide Cstr;
    var match_: bool;
    if u.line[0] == TILDE[0] && u.line[1] == 0 {
      match_ := Is(u.name, RUNLEVEL);
      if match_ { return Some(RUN_LVL); }
      match_ := Is(u.name, REBOOT);
      if match_ { return Some(BOOT_TIME); }
      match_ := Is(u.name, ACCT);
      return if match_ then Some(ACCOUNTING) else None;
    } else if u.line[0] == BRACE[0] && u.line[1] == 0 {
      match_ := Is(u.name, DATE);
      return if match_ then Some(NEW_TIME) else None;
    } else if u.line[0] == BAR[0] && u.line[1] == 0 {
      match_ := Is(u.name, DATE);
      return if match_ then Some(OLD_TIME) else None;
    } else {
      match_ := Is(u.name, INIT);
      if match_ { return Some(INIT_PROCESS); }
      match_ := Is(u.name, LOGIN);
      if match_ { return Some(LOGIN_PROCESS); }
      match_ := Is(u.name, []);
      return Some(if match_ then DEAD_PROCESS else USER_PROCESS);
    }
  }

  /** The copy of the hidden string, with a NUL behind it. */
  lemma BufferIs(buf: seq<byte>, hidden: seq<byte>)
    requires |hidden| < |buf| && buf[..|hidden|] == Strncpy(hidden, |hidden|) && buf[|hidden|] == 0
    ensures Cstr(buf) == Cstr(hidden)
  {
    var c := Cstr(hidden);
    CstrIs(hidden);
    assert c[..Min(|hidden|, |c|)] == c;
    assert forall i :: 0 <= i < |hidden| ==> buf[i] == Strncpy(hidden, |hidden|)[i];
    CstrUpTo(buf, |c|);
    assert buf[..|c|] == c;
  }

  /** "Recover the ut_pid from the hidden place after the host." */
  method FindPid(host: array<byte>) returns (pid: int)
    requires host.Length == UT_HOSTSIZE
    ensures pid == HiddenPid(host[..])
  {
    hide Strncpy, Strtoul, Int;
    pid := 0;
    var len := Strnlen(host);
    if len < UT_HOSTSIZE - 2 {
      var hidden := host[len + 1..];
      if hidden[0] != 0 {
        var n := UT_HOSTSIZE - len - 1;
        var buf := new byte[UT_HOSTSIZE];
        CopyString(buf, 0, hidden, n);
        buf[n] := 0;
        BufferIs(buf[..], hidden);
        CstrIs(buf[..]);
        var len' := Strnlen(buf);
        assert hidden == host[..][len + 1..] && buf[..len'] == Cstr(buf[..]);
        var value := Strtoul(buf[..len']);
        if value.Some? { pid := Int(value.value); }
      }
    }
  }

  /** User, line and id of a process. */
  method PutProcess(u: UtmpRecord, ux: UtmpxRecord)
    requires ux.Valid() && u.Valid() && ux.typ.Process()
    requires {u.line, u.name, u.host} !! {ux.line, ux.id, ux.user, ux.host, ux.addr}
    requires ux.line[..] == Zeros(UTX_LINESIZE) && ux.user[..] == Zeros(UTX_NAMESIZE)
    modifies ux.line, ux.id, ux.user
    ensures ux.user[..] == UserFor(u.name[..], ux.typ)
    ensures ux.line[..] ==
      if IsTty(u.line[..]) then Strncpy(u.line[..], UT_LINESIZE) + Zeros(LINE_MORE) else Zeros(UTX_LINESIZE)
    ensures ux.id[..] == Strncpy(if IsTty(u.line[..]) then u.line[3..] else u.line[..], ID_SIZE)
  {
    hide Strncpy, Cstr;
    if ux.typ.LOGIN_PROCESS? || ux.typ.USER_PROCESS? { CopyInto(ux.user, u.name[..], UT_NAMESIZE); }
    if u.line[..3] == TTY {
      CopyInto(ux.line, u.line[..], UT_LINESIZE);
      CopyField(ux.id, u.line[3..]);
    } else {
      CopyField(ux.id, u.line[..]);
    }
  }

  method ToUtmpx(u: UtmpRecord, ux: UtmpxRecord) returns (r: int)
    requires ux.Valid() && u.Valid()
    requires {u.line, u.name, u.host} !! {ux.line, ux.id, ux.user, ux.host, ux.addr}
    modifies ux, ux.line, ux.id, ux.user, ux.host, ux.addr
    ensures r == if Decode(u.View()).Some? then 0 else -1
    ensures ux.View() == if r == 0 then Decode(u.View()).value else NO_ONE
  {
    hide Strncpy, Cstr, TypeOf, HiddenPid;
    ux.Clear();
    if u.line[0] == 0 && u.name[0] == 0 && u.host[0] == 0 {
      ux.typ := EMPTY;
    } else {
      var typ := FindType(u);
      if typ == None { return -1; }
      PutRecord(u, ux, typ.value);
    }
    r := 0;
  }

  lemma DecodeIs(u: Utmp, typ: UtType)
    requires u.Sized() && !Blank(u) && TypeOf(u) == Some(typ)
    ensures var tty := IsTty(u.line);
      Decode(u) == Some(Utmpx(typ, HiddenPid(u.host),
        if typ.Process() && tty then Strncpy(u.line, UT_LINESIZE) + Zeros(LINE_MORE) else Zeros(UTX_LINESIZE),
        if typ.Process() then Strncpy(if tty then u.line[3..] else u.line, ID_SIZE) else Zeros(ID_SIZE),
        if typ.Process() then UserFor(u.name, typ) else Zeros(UTX_NAMESIZE),
        Strncpy(u.host, UT_HOSTSIZE) + Zeros(HOST_MORE), (0, 0), 0, u.time, 0, Zeros(ADDR_SIZE)))
  {
    hide Strncpy, Cstr, TypeOf, HiddenPid, Blank;
  }

  /** A record of a known type, into one that is all zeros. */
  method PutRecord(u: UtmpRecord, ux: UtmpxRecord, typ: UtType)
    requires ux.Valid() && u.Valid() && ux.View() == NO_ONE && !Blank(u.View()) && TypeOf(u.View()) == Some(typ)
    requires {u.line, u.name, u.host} !! {ux.line, ux.id, ux.user, ux.host, ux.addr}
    modifies ux, ux.line, ux.id, ux.user, ux.host
    ensures Decode(u.View()) == Some(ux.View())
  {
    hide Strncpy, Cstr, TypeOf, HiddenPid, IsTty, Blank, Decode, UserFor;
    DecodeIs(u.View(), typ);
    ux.typ := typ;
    if ux.typ.Process() { PutProcess(u, ux); }
    CopyInto(ux.host, u.host[..], UT_HOSTSIZE);
    ux.pid := FindPid(u.host);
    ux.sec := u.time;
    ux.usec := 0;
  }
}
