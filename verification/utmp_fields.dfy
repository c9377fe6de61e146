/** The conversions field by field, on strings: what is written for each record, and what is read from each. */
module UtmpFields {
  import opened Memory
  import opened CStrings
  import opened Utmp
  import opened UtmpCodec

  /** The field has the string s, and NULs behind it. */
  predicate Has(field: seq<byte>, s: seq<byte>) {
    s <= field && forall i :: |s| <= i < |field| ==> field[i] == 0
  }

  function Cut(s: seq<byte>, n: nat): seq<byte> { if |s| <= n then s else s[..n] }

  lemma StrncpyHas(src: seq<byte>, n: nat, m: nat)
    ensures Has(Strncpy(src, n) + Zeros(m), Cut(Cstr(src), n))
  {
    hide Cstr;
  }

  lemma HasCstr(field: seq<byte>, src: seq<byte>, n: nat)
    requires Has(field, Cut(Cstr(src), n))
    ensures Cstr(field) == Cut(Cstr(src), n)
  {
    CstrIs(src);
    CstrUpTo(field, |Cut(Cstr(src), n)|);
  }

  lemma PlainHas(src: seq<byte>, n: nat)
    ensures Has(Strncpy(src, n), Cut(Cstr(src), n))
  {
    StrncpyHas(src, n, 0);
    assert Strncpy(src, n) + Zeros(0) == Strncpy(src, n);
  }

  /** A string without NUL that fits. */
  lemma LiteralHas(s: seq<byte>, n: nat)
    requires |s| <= n && forall i :: 0 <= i < |s| ==> s[i] != 0
    ensures Has(Strncpy(s, n), s)
  {
    CstrUpTo(s, |s|);
    PlainHas(s, n);
  }

  // What is written.

  /** The name that stands for the type, but for a user. */
  function ReservedName(typ: UtType): seq<byte> {
    match typ
    case RUN_LVL => RUNLEVEL
    case BOOT_TIME => REBOOT
    case ACCOUNTING => ACCT
    case NEW_TIME => DATE
    case OLD_TIME => DATE
    case INIT_PROCESS => INIT
    case LOGIN_PROCESS => LOGIN
    case _ => []
  }

  function ReservedLine(typ: UtType): seq<byte> {
    match typ
    case RUN_LVL => TILDE
    case BOOT_TIME => TILDE
    case ACCOUNTING => TILDE
    case NEW_TIME => BRACE
    case OLD_TIME => BAR
    case _ => []
  }

  lemma WrittenName(ux: Utmpx)
    requires ux.Sized() && !ux.typ.OTHER?
    ensures Has(NameFor(ux), if ux.typ.USER_PROCESS? then Cut(Cstr(ux.user), UT_NAMESIZE) else ReservedName(ux.typ))
  {
    hide Strncpy, Cstr, Has;
    if ux.typ.USER_PROCESS? { PlainHas(ux.user, UT_NAMESIZE); } else { LiteralHas(ReservedName(ux.typ), UT_NAMESIZE); }
  }

  lemma WrittenLine(ux: Utmpx, prev: seq<byte>)
    requires ux.Sized() && |prev| == UT_LINESIZE && !ux.typ.OTHER?
    ensures !ux.typ.Process() ==> Has(LineFor(ux, prev), ReservedLine(ux.typ))
    ensures ux.typ.Process() && Cstr(ux.line) != [] ==> Has(LineFor(ux, prev), Cut(Cstr(ux.line), UT_LINESIZE))
    ensures ux.typ.Process() && Cstr(ux.line) == [] ==>
      Has(LineFor(ux, prev)[..ID_SIZE], Cstr(ux.id)) && LineFor(ux, prev)[ID_SIZE..] == prev[ID_SIZE..]
  {
    hide Strncpy, Cstr, Has;
    EmptyIs(ux.line);
    if !ux.typ.Process() {
      LiteralHas(ReservedLine(ux.typ), UT_LINESIZE);
    } else if Cstr(ux.line) != [] {
      PlainHas(ux.line, UT_LINESIZE);
    } else {
      CstrIs(ux.id);
      PlainHas(ux.id, ID_SIZE);
      assert LineFor(ux, prev)[..ID_SIZE] == Strncpy(ux.id, ID_SIZE);
    }
  }

  /** Host and pid: the digits stand behind the NUL of the host if there is room for them. */
  predicate HostHas(field: seq<byte>, host: seq<byte>, pid: int)
    requires -0x8000_0000 <= pid < 0x8000_0000
  {
    var digits := Decimal(Unsigned(pid));
    if pid == 0 || |host| + 1 + |digits| > |field| then Has(field, host)
    else host <= field && field[|host|] == 0 && Has(field[|host| + 1..], digits)
  }

  lemma WrittenHost(ux: Utmpx, h: seq<byte>)
    requires ux.Sized() && HidePid(HostFor(ux), ux.pid) == Some(h)
    ensures HostHas(h, if ux.typ.EMPTY? then [] else Cut(Cstr(ux.host), UT_HOSTSIZE), ux.pid)
  {
    hide Strncpy, Cstr, Has, Decimal;
    var src := if ux.typ.EMPTY? then [] else ux.host;
    assert Cstr([]) == [] by { CstrUpTo([], 0); }
    var host, digits := HostFor(ux), Decimal(Unsigned(ux.pid));
    PlainHas(src, UT_HOSTSIZE);
    HasCstr(host, src, UT_HOSTSIZE);
    var k := |Cstr(host)|;
    CstrIs(host);
    ValueDecimal(Unsigned(ux.pid));
    if ux.pid != 0 && k + 1 + |digits| <= UT_HOSTSIZE {
      var room := UT_HOSTSIZE - k - 1;
      DigitsHas(digits, room);
      assert h[k + 1..] == Strncpy(digits, room);
    }
  }

  lemma DigitsHas(digits: seq<byte>, room: nat)
    requires AllDigits(digits) && |digits| <= room
    ensures Has(Strncpy(digits, room), digits)
  {
    LiteralHas(digits, room);
  }

  /**
    Every record that is written, conventional or not: reserved line and name for its type; the line of a process cut to
    its field, be it a terminal or not, or else its id over what the buffer held; host, pid and time.
  */
  lemma WrittenFields(ux: Utmpx, prev: Utmp, u: Utmp)
    requires ux.Sized() && prev.Sized() && Encode(ux, prev) == Written(u)
    ensures Has(u.name, if ux.typ.USER_PROCESS? then Cut(Cstr(ux.user), UT_NAMESIZE) else ReservedName(ux.typ))
    ensures !ux.typ.Process() ==> Has(u.line, ReservedLine(ux.typ))
    ensures ux.typ.Process() && Cstr(ux.line) != [] ==> Has(u.line, Cut(Cstr(ux.line), UT_LINESIZE))
    ensures ux.typ.Process() && Cstr(ux.line) == [] ==>
      Has(u.line[..ID_SIZE], Cstr(ux.id)) && u.line[ID_SIZE..] == prev.line[ID_SIZE..]
    ensures HostHas(u.host, if ux.typ.EMPTY? then [] else Cut(Cstr(ux.host), UT_HOSTSIZE), ux.pid)
    ensures u.time == ux.sec
  {
    hide LineFor, NameFor, HostFor, HidePid, Has, HostHas, Cstr;
    WrittenName(ux);
    WrittenLine(ux, prev.line);
    WrittenHost(ux, u.host);
  }

  // What is read.

  /** What a line and a name stand for. */
  function Meaning(line: seq<byte>, name: seq<byte>): Option<UtType> {
    if line == TILDE then
      if name == RUNLEVEL then Some(RUN_LVL) else if name == REBOOT then Some(BOOT_TIME)
      else if name == ACCT then Some(ACCOUNTING) else None
    else if line == BRACE then if name == DATE then Some(NEW_TIME) else None
    else if line == BAR then if name == DATE then Some(OLD_TIME) else None
    else if name == INIT then Some(INIT_PROCESS)
    else if name == LOGIN then Some(LOGIN_PROCESS)
    else if name == [] then Some(DEAD_PROCESS)
    else Some(USER_PROCESS)
  }

  lemma MeaningIs(u: Utmp)
    requires u.Sized()
    ensures TypeOf(u) == Meaning(Cstr(u.line), Cstr(u.name))
  {
    hide Cstr;
    MarkedIs(u.line, TILDE);
    MarkedIs(u.line, BRACE);
    MarkedIs(u.line, BAR);
  }

  predicate Nothing(u: Utmp) { Cstr(u.line) == [] && Cstr(u.name) == [] && Cstr(u.host) == [] }

  lemma NothingIs(u: Utmp)
    requires u.Sized()
    ensures Blank(u) <==> Nothing(u)
  {
    EmptyIs(u.line);
    EmptyIs(u.name);
    EmptyIs(u.host);
  }

  lemma WholeHas(src: seq<byte>, n: nat, m: nat)
    requires |src| <= n
    ensures Has(Strncpy(src, n) + Zeros(m), Cstr(src))
  {
    CstrIs(src);
    StrncpyHas(src, n, m);
  }

  /** A terminal and the id that is cut from it, or only an id. */
  lemma ReadLine(u: Utmp, ux: Utmpx)
    requires u.Sized() && Decode(u) == Some(ux) && ux.typ.Process()
    ensures if TTY <= Cstr(u.line) then Has(ux.line, Cstr(u.line)) && Has(ux.id, Cut(Cstr(u.line)[3..], ID_SIZE))
            else Has(ux.line, []) && Has(ux.id, Cut(Cstr(u.line), ID_SIZE))
  {
    hide Strncpy, Cstr, Has, TypeOf, HiddenPid;
    IsTtyIs(u.line);
    if IsTty(u.line) {
      WholeHas(u.line, UT_LINESIZE, LINE_MORE);
      CstrDrop(u.line, 3);
      PlainHas(u.line[3..], ID_SIZE);
    } else {
      PlainHas(u.line, ID_SIZE);
      ZerosHas(UTX_LINESIZE);
    }
  }

  lemma ZerosHas(n: nat)
    ensures Has(Zeros(n), [])
  {
  }

  /** Every record that is read, and what is left unread. */
  lemma ReadFields(u: Utmp)
    requires u.Sized()
    ensures Decode(u) == None <==> !Nothing(u) && Meaning(Cstr(u.line), Cstr(u.name)) == None
    ensures Nothing(u) ==> Decode(u) == Some(NO_ONE)
    ensures !Nothing(u) && Decode(u).Some? ==>
      var ux := Decode(u).value;
      && Some(ux.typ) == Meaning(Cstr(u.line), Cstr(u.name))
      && (ux.typ.Process() && TTY <= Cstr(u.line) ==>
            Has(ux.line, Cstr(u.line)) && Has(ux.id, Cut(Cstr(u.line)[3..], ID_SIZE)))
      && (ux.typ.Process() && !(TTY <= Cstr(u.line)) ==>
            Has(ux.line, []) && Has(ux.id, Cut(Cstr(u.line), ID_SIZE)))
      && (!ux.typ.Process() ==> Has(ux.line, []) && Has(ux.id, []))
      && Has(ux.user, if ux.typ.LOGIN_PROCESS? || ux.typ.USER_PROCESS? then Cstr(u.name) else [])
      && Has(ux.host, Cstr(u.host)) && ux.pid == HiddenPid(u.host) && ux.sec == u.time
      && ux.exit == (0, 0) && ux.session == 0 && ux.usec == 0 && ux.addr == Zeros(ADDR_SIZE)
  {
    hide Strncpy, Cstr, Has, HiddenPid, TypeOf, Meaning;
    NothingIs(u);
    MeaningIs(u);
    if !Nothing(u) && Decode(u).Some? {
      var ux := Decode(u).value;
      if ux.typ.Process() { ReadLine(u, ux); }
      WholeHas(u.name, UT_NAMESIZE, NAME_MORE);
      WholeHas(u.host, UT_HOSTSIZE, HOST_MORE);
      ZerosHas(UTX_LINESIZE);
      ZerosHas(ID_SIZE);
      ZerosHas(UTX_NAMESIZE);
    }
  }

  // A process on a line that is no terminal.

  /** Its line comes back as its id, cut to the size of one, unless it is one of the three marks. */
  lemma NoTerminalBack(ux: Utmpx, prev: Utmp, u: Utmp)
    requires ux.Sized() && prev.Sized() && Encode(ux, prev) == Written(u) && ux.typ.Process()
    requires Cstr(ux.line) != [] && !(TTY <= Cstr(ux.line))
    ensures Cstr(ux.line) in {TILDE, BRACE, BAR} <==> !(Decode(u).Some? && Decode(u).value.typ.Process())
    ensures Cstr(ux.line) !in {TILDE, BRACE, BAR} ==>
      Has(Decode(u).value.line, []) && Has(Decode(u).value.id, Cut(Cstr(ux.line), ID_SIZE))
  {
    hide Has, Cstr, Encode, Decode;
    WrittenFields(ux, prev, u);
    HasCstr(u.line, ux.line, UT_LINESIZE);
    CutTwice(Cstr(ux.line), UT_LINESIZE, ID_SIZE);
    assert Cstr(u.line) != [];
    ReadFields(u);
  }

  lemma CutTwice(s: seq<byte>, n: nat, m: nat)
    requires m <= n
    ensures Cut(Cut(s, n), m) == Cut(s, m)
  {
  }

  // The hidden pid, whoever wrote it.

  /** Digits of a number that an int can hold are read as that number. */
  lemma ReadDigits(host: seq<byte>)
    requires |host| == UT_HOSTSIZE
    requires var k := |Cstr(host)|; k + 3 <= UT_HOSTSIZE && AllDigits(Cstr(host[k + 1..])) && Cstr(host[k + 1..]) != []
    requires Value(Cstr(host[|Cstr(host)| + 1..])) < 0x8000_0000
    ensures HiddenPid(host) == Value(Cstr(host[|Cstr(host)| + 1..]))
  {
    hide Cstr;
    var tail := host[|Cstr(host)| + 1..];
    CstrIs(tail);
    assert tail[0] == Cstr(tail)[0];
    NumberRead(Cstr(tail));
  }

  lemma NumberRead(s: seq<byte>)
    requires AllDigits(s) && s != [] && Value(s) < 0x8000_0000
    ensures Strtoul(s) == Some(Value(s)) && Int(Value(s)) == Value(s)
  {
    hide Value;
    assert IsDigit(s[0]);
    assert SkipSpace(s) == s;
  }

  predicate NumberByte(c: byte) { IsDigit(c) || IsSpace(c) || c in {PLUS, MINUS} }

  lemma {:induction false} StrangerStays(s: seq<byte>, i: nat) returns (j: nat)
    requires i < |s| && !NumberByte(s[i])
    ensures j < |SkipSpace(s)| && !NumberByte(SkipSpace(s)[j])
  {
    if IsSpace(s[0]) { j := StrangerStays(s[1..], i - 1); } else { j := i; }
  }

  lemma NoNumber(s: seq<byte>, i: nat)
    requires i < |s| && !NumberByte(s[i])
    ensures Strtoul(s) == None
  {
    hide Value;
    var t := SkipSpace(s);
    var j := StrangerStays(s, i);
    if t[0] in {PLUS, MINUS} { assert t[1..][j - 1] == t[j]; }
  }

  /** Nothing behind the host's NUL, no room for it, or anything else than a number: no pid. */
  lemma ReadNoPid(host: seq<byte>, i: nat)
    requires |host| == UT_HOSTSIZE
    requires var k := |Cstr(host)|;
      || k + 3 > UT_HOSTSIZE || host[k + 1] == 0
      || (i < |Cstr(host[k + 1..])| && !NumberByte(Cstr(host[k + 1..])[i]))
    ensures HiddenPid(host) == 0
  {
    hide Cstr, Strtoul, Int;
    var k := |Cstr(host)|;
    if k + 3 <= UT_HOSTSIZE && host[k + 1] != 0 { NoNumber(Cstr(host[k + 1..]), i); }
  }
}
