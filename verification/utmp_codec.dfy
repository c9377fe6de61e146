/** Which records survive the way from utmpx to utmp and back. */
module UtmpCodec {
  import opened Memory
  import opened CStrings
  import opened Utmp

  // The pid behind the host.

  /** A pid comes back from the hidden place. */
  predicate PidFits(k: nat, pid: int)
    requires -0x8000_0000 <= pid < 0x8000_0000
  {
    var digits := |Decimal(Unsigned(pid))|;
    pid == 0 || (digits <= 10 && k + 3 <= UT_HOSTSIZE && digits <= UT_HOSTSIZE - k - 1)
  }

  function Pow10(d: nat): (r: nat)
    ensures r > 0
  {
    if d == 0 then 1 else 10 * Pow10(d - 1)
  }

  lemma {:induction false} DecimalLength(n: nat, d: nat)
    requires d > 0
    ensures |Decimal(n)| <= d <==> n < Pow10(d)
    decreases d
  {
    if n >= 10 {
      if d > 1 { DecimalLength(n / 10, d - 1); } else { ValueDecimal(n / 10); }
    } else {
      assert Pow10(d) >= 10;
    }
  }

  /** The eleven bytes of the print buffer are too few for a negative pid with 64-bit longs, and for nothing else. */
  lemma TooManyDigits(pid: int)
    requires -0x8000_0000 <= pid < 0x8000_0000
    ensures |Decimal(Unsigned(pid))| > 10 <==> pid < 0 && ULONG_MAX > 0xFFFF_FFFF
  {
    assert Pow10(10) == 10_000_000_000 by { assert Pow10(5) == 100_000; }
    DecimalLength(Unsigned(pid), 10);
  }

  /** A positive pid fits if the host leaves two bytes or more behind its NUL, and no fewer than the pid has digits. */
  lemma PidFitsExactly(k: nat, pid: int)
    requires 0 < pid < 0x8000_0000
    ensures PidFits(k, pid) <==> k + 3 <= UT_HOSTSIZE && pid < Pow10(UT_HOSTSIZE - k - 1)
  {
    assert Pow10(10) == 10_000_000_000 by { assert Pow10(5) == 100_000; }
    DecimalLength(pid, 10);
    if k + 3 <= UT_HOSTSIZE { DecimalLength(pid, UT_HOSTSIZE - k - 1); }
  }

  lemma CstrPrefix(s: seq<byte>, k: nat, rest: seq<byte>)
    requires k < |s| && k == |Cstr(s)|
    ensures Cstr(s[..k + 1] + rest) == Cstr(s)
  {
    CstrIs(s);
    CstrUpTo(s[..k + 1] + rest, k);
  }

  /** What is written behind the NUL of the host stands there as a string. */
  lemma Behind(host: seq<byte>, k: nat, digits: seq<byte>, h: seq<byte>)
    requires k == |Cstr(host)| && k + 1 + |digits| <= |host| && digits != [] && AllDigits(digits)
    requires h == host[..k + 1] + Strncpy(digits, |host| - k - 1)
    ensures Cstr(h) == Cstr(host) && h[k + 1] != 0 && Cstr(h[k + 1..]) == digits
  {
    var tail := Strncpy(digits, |host| - k - 1);
    CstrPrefix(host, k, tail);
    CstrUpTo(digits, |digits|);
    CstrStrncpy(digits, |host| - k - 1, 0);
    assert tail + Zeros(0) == tail;
    assert h[k + 1..] == tail;
    assert h[k + 1] == tail[0] == digits[0];
  }

  lemma NothingHidden(host: seq<byte>, src: seq<byte>)
    requires host == Strncpy(src, UT_HOSTSIZE)
    ensures HiddenPid(host) == 0
  {
    CstrStrncpy(src, UT_HOSTSIZE, 0);
    assert host + Zeros(0) == host;
  }

  /** The host keeps its string, and the pid comes back if there is room for it; else 0 does. */
  lemma PidRoundTrip(src: seq<byte>, host: seq<byte>, pid: int)
    requires host == Strncpy(src, UT_HOSTSIZE) && -0x8000_0000 <= pid < 0x8000_0000
    ensures HidePid(host, pid) == None <==>
      pid != 0 && (|Cstr(host)| == UT_HOSTSIZE || (pid < 0 && ULONG_MAX > 0xFFFF_FFFF))
    ensures var h := HidePid(host, pid); h.Some? ==> Same(h.value, host)
    ensures var h := HidePid(host, pid); h.Some? ==> HiddenPid(h.value) == if PidFits(|Cstr(host)|, pid) then pid else 0
  {
    hide Strtoul, Decimal, Int, Strncpy, Unsigned, Cstr, HiddenPid, PidFits, HidePid;
    TooManyDigits(pid);
    NothingHidden(host, src);
    HidePidIs(host, pid);
  }

  lemma HidePidIs(host: seq<byte>, pid: int)
    requires |host| == UT_HOSTSIZE && HiddenPid(host) == 0 && -0x8000_0000 <= pid < 0x8000_0000
    ensures HidePid(host, pid) == None <==>
      pid != 0 && (|Cstr(host)| == UT_HOSTSIZE || |Decimal(Unsigned(pid))| > 10)
    ensures var h := HidePid(host, pid); h.Some? ==> Same(h.value, host)
    ensures var h := HidePid(host, pid); h.Some? ==> HiddenPid(h.value) == if PidFits(|Cstr(host)|, pid) then pid else 0
  {
    hide Strtoul, Decimal, Int, Strncpy, Unsigned, Cstr, HiddenPid;
    var k, digits := |Cstr(host)|, Decimal(Unsigned(pid));
    assert k <= UT_HOSTSIZE by { CstrIs(host); }
    if pid != 0 && k < UT_HOSTSIZE && |digits| <= UT_HOSTSIZE - k - 1 {
      HiddenIs(host, k, pid);
    }
  }

  lemma HiddenIs(host: seq<byte>, k: nat, pid: int)
    requires |host| == UT_HOSTSIZE && k == |Cstr(host)| && -0x8000_0000 <= pid < 0x8000_0000
    requires var digits := Decimal(Unsigned(pid)); k + 1 + |digits| <= UT_HOSTSIZE
    ensures var h := host[..k + 1] + Strncpy(Decimal(Unsigned(pid)), UT_HOSTSIZE - k - 1);
      Same(h, host) && HiddenPid(h) == if k + 3 <= UT_HOSTSIZE then pid else 0
  {
    hide Strtoul, Decimal, Int, Strncpy, Unsigned, Cstr;
    var digits := Decimal(Unsigned(pid));
    ValueDecimal(Unsigned(pid));
    Behind(host, k, digits, host[..k + 1] + Strncpy(digits, UT_HOSTSIZE - k - 1));
    PrintAndRead(pid);
  }

  // From utmpx to utmp and back.

  predicate RoundTrips(ux: Utmpx, prev: Utmp)
    requires ux.Sized() && prev.Sized()
  {
    var e := Encode(ux, prev);
    e.Written? && Decode(e.u).Some? && UtmpxEqual(Decode(e.u).value, ux)
  }

  predicate Empty(s: seq<byte>) { Cstr(s) == [] }

  /** struct utmp has no room for these. */
  predicate NothingElse(ux: Utmpx) {
    ux.exit == (0, 0) && ux.session == 0 && ux.usec == 0 && ux.addr == Zeros(ADDR_SIZE)
  }

  predicate HostOk(ux: Utmpx)
    requires ux.Sized()
  {
    |Cstr(ux.host)| <= UT_HOSTSIZE && PidFits(|Cstr(ux.host)|, ux.pid)
  }

  /** The user name goes with the type. */
  predicate UserOk(ux: Utmpx) {
    var user := Cstr(ux.user);
    if ux.typ.USER_PROCESS? then user !in {[], INIT, LOGIN} && |user| <= UT_NAMESIZE
    else if ux.typ.LOGIN_PROCESS? then user == LOGIN
    else user == []
  }

  /** A process on a terminal: its line is "tty" and more, its id the beginning of that. */
  predicate TtyOk(ux: Utmpx)
    requires ux.Sized()
  {
    var line := Cstr(ux.line);
    TTY <= line && |line| <= UT_LINESIZE && Cstr(ux.id) == line[3..][..Min(ID_SIZE, |line| - 3)]
  }

  /** A process without line: its id, put in the place of the line, is not taken for anything else. */
  predicate IdOk(ux: Utmpx, prev: Utmp)
    requires ux.Sized() && prev.Sized()
  {
    && Cstr(ux.id) !in {TILDE, BRACE, BAR}
    && !IsTty(Strncpy(ux.id, ID_SIZE) + prev.line[ID_SIZE..])
    && !(ux.typ.DEAD_PROCESS? && Empty(ux.id) && Empty(ux.host))
  }

  /** The conventions, for a record and the buffer it is converted into. */
  predicate Conventional(ux: Utmpx, prev: Utmp)
    requires ux.Sized() && prev.Sized()
  {
    && NothingElse(ux)
    && match ux.typ
       case OTHER(_) => false
       case EMPTY => Empty(ux.line) && Empty(ux.id) && Empty(ux.user) && Empty(ux.host) && ux.pid == 0 && ux.sec == 0
       case _ =>
         && HostOk(ux)
         && if ux.typ.Process() then UserOk(ux) && (if Empty(ux.line) then IdOk(ux, prev) else TtyOk(ux))
            else Empty(ux.line) && Empty(ux.id) && Empty(ux.user)
  }

  lemma MarkedIs(line: seq<byte>, c: seq<byte>)
    requires |line| >= 2 && |c| == 1 && c[0] != 0
    ensures Marked(line, c) <==> Cstr(line) == c
  {
    CstrIs(line);
    if Marked(line, c) { CstrUpTo(line, 1); }
  }

  lemma IsTtyIs(line: seq<byte>)
    ensures IsTty(line) <==> TTY <= Cstr(line)
  {
    CstrIs(line);
    if IsTty(line) { assert line == TTY + line[3..]; }
  }

  lemma EmptyIs(s: seq<byte>)
    requires s != []
    ensures Empty(s) <==> s[0] == 0
  {
  }

  /** A string without NUL that fits. */
  lemma Literal(s: seq<byte>, n: nat)
    requires |s| <= n && forall i :: 0 <= i < |s| ==> s[i] != 0
    ensures Cstr(Strncpy(s, n)) == s
  {
    CstrUpTo(s, |s|);
    CstrStrncpy(s, n, 0);
    assert Strncpy(s, n) + Zeros(0) == Strncpy(s, n);
  }

  /** A field on its way there and back. */
  lemma Field(src: seq<byte>, n: nat, m: nat)
    ensures var c := Cstr(src)[..Min(n, |Cstr(src)|)];
      Cstr(Strncpy(src, n)) == c && Cstr(Strncpy(Strncpy(src, n), n) + Zeros(m)) == c
  {
    CstrStrncpy(src, n, 0);
    assert Strncpy(src, n) + Zeros(0) == Strncpy(src, n);
    CstrStrncpy(Strncpy(src, n), n, m);
  }

  lemma ZerosEmpty(n: nat)
    ensures Empty(Zeros(n))
  {
  }

  lemma HostBack(ux: Utmpx)
    requires ux.Sized() && !ux.typ.EMPTY?
    ensures var h := HidePid(HostFor(ux), ux.pid);
      HostOk(ux) <==>
        h.Some? && HiddenPid(h.value) == ux.pid && Same(Strncpy(h.value, UT_HOSTSIZE) + Zeros(HOST_MORE), ux.host)
    ensures var h := HidePid(HostFor(ux), ux.pid); h.Some? ==> (h.value[0] == 0 <==> Empty(ux.host))
  {
    var host := HostFor(ux);
    PidRoundTrip(ux.host, host, ux.pid);
    Field(ux.host, UT_HOSTSIZE, HOST_MORE);
    EmptyIs(ux.host);
    var h := HidePid(host, ux.pid);
    if h.Some? {
      EmptyIs(h.value);
      CstrStrncpy(h.value, UT_HOSTSIZE, HOST_MORE);
      CstrIs(h.value);
    }
  }

  /** The marked records: run level, boot, accounting and clock. */
  lemma MarkBack(ux: Utmpx, prev: Utmp, u: Utmp)
    requires ux.Sized() && prev.Sized() && u.Sized() && !ux.typ.OTHER? && !ux.typ.EMPTY? && !ux.typ.Process()
    requires u.line == LineFor(ux, prev.line) && u.name == NameFor(ux)
    ensures !Blank(u) && TypeOf(u) == Some(ux.typ)
  {
    hide Strncpy, Cstr;
    var mark := if ux.typ.NEW_TIME? then BRACE else if ux.typ.OLD_TIME? then BAR else TILDE;
    Literal(mark, UT_LINESIZE);
    MarkedIs(u.line, TILDE);
    MarkedIs(u.line, BRACE);
    MarkedIs(u.line, BAR);
    Literal(RUNLEVEL, UT_NAMESIZE);
    Literal(REBOOT, UT_NAMESIZE);
    Literal(ACCT, UT_NAMESIZE);
    Literal(DATE, UT_NAMESIZE);
    assert mark != [];
    CstrIs(u.line);
  }

  lemma MarkRoundTrip(ux: Utmpx, prev: Utmp)
    requires ux.Sized() && prev.Sized() && !ux.typ.OTHER? && !ux.typ.EMPTY? && !ux.typ.Process()
    ensures RoundTrips(ux, prev) <==> Conventional(ux, prev)
  {
    hide Strncpy, Cstr, HidePid, HiddenPid, PidFits, LineFor, NameFor, HostFor;
    HostBack(ux);
    var h := HidePid(HostFor(ux), ux.pid);
    if h.Some? {
      var u := Utmp(LineFor(ux, prev.line), NameFor(ux), h.value, ux.sec);
      MarkBack(ux, prev, u);
      ZerosEmpty(UTX_LINESIZE);
      ZerosEmpty(ID_SIZE);
      ZerosEmpty(UTX_NAMESIZE);
    }
  }

  lemma EmptyRoundTrip(ux: Utmpx, prev: Utmp)
    requires ux.Sized() && prev.Sized() && ux.typ.EMPTY?
    ensures RoundTrips(ux, prev) <==> Conventional(ux, prev)
  {
    hide Strncpy, Cstr, HidePid, HiddenPid, PidFits;
    var host := HostFor(ux);
    PidRoundTrip([], host, ux.pid);
    Literal([], UT_HOSTSIZE);
    Literal([], UT_LINESIZE);
    Literal([], UT_NAMESIZE);
    EmptyIs(LineFor(ux, prev.line));
    EmptyIs(NameFor(ux));
    var h := HidePid(host, ux.pid);
    if h.Some? { EmptyIs(h.value); }
    if ux.pid == 0 { assert h == Some(host) by { HidesNothing(host); } }
    ZerosEmpty(UTX_LINESIZE);
    ZerosEmpty(ID_SIZE);
    ZerosEmpty(UTX_NAMESIZE);
    ZerosEmpty(UTX_HOSTSIZE);
  }

  lemma HidesNothing(host: seq<byte>)
    requires |host| == UT_HOSTSIZE
    ensures HidePid(host, 0) == Some(host)
  {
  }

  // Processes.

  predicate AnyMark(line: seq<byte>)
    requires |line| >= 2
  {
    Marked(line, TILDE) || Marked(line, BRACE) || Marked(line, BAR)
  }

  lemma AnyMarkIs(line: seq<byte>)
    requires |line| >= 2
    ensures AnyMark(line) <==> Cstr(line) in {TILDE, BRACE, BAR}
  {
    MarkedIs(line, TILDE);
    MarkedIs(line, BRACE);
    MarkedIs(line, BAR);
  }

  function ProcessType(name: seq<byte>): UtType {
    if name == INIT then INIT_PROCESS
    else if name == LOGIN then LOGIN_PROCESS
    else if name == [] then DEAD_PROCESS
    else USER_PROCESS
  }

  function UserFor(name: seq<byte>, typ: UtType): seq<byte> {
    if typ.LOGIN_PROCESS? || typ.USER_PROCESS? then Strncpy(name, UT_NAMESIZE) + Zeros(NAME_MORE)
    else Zeros(UTX_NAMESIZE)
  }

  /** Type and user name come back exactly if they go together. */
  lemma UserBack(ux: Utmpx, name: seq<byte>)
    requires ux.Sized() && ux.typ.Process() && name == NameFor(ux)
    ensures UserOk(ux) <==> ProcessType(Cstr(name)) == ux.typ && Same(UserFor(name, ux.typ), ux.user)
    ensures name[0] == 0 <==> Empty(name)
    ensures ux.typ.DEAD_PROCESS? ==> Empty(name)
  {
    hide Cstr, Strncpy;
    var src := if ux.typ.USER_PROCESS? then ux.user else if ux.typ.INIT_PROCESS? then INIT
               else if ux.typ.LOGIN_PROCESS? then LOGIN else [];
    Field(src, UT_NAMESIZE, NAME_MORE);
    if !ux.typ.USER_PROCESS? { Literal(src, UT_NAMESIZE); }
    assert |Cstr(src)| <= UT_NAMESIZE ==> Cstr(src)[..Min(UT_NAMESIZE, |Cstr(src)|)] == Cstr(src);
    ZerosEmpty(UTX_NAMESIZE);
    EmptyIs(name);
  }

  lemma LongCstr(s: seq<byte>, n: nat)
    requires n <= |s| && forall i :: 0 <= i < n ==> s[i] != 0
    ensures n <= |Cstr(s)|
  {
    CstrIs(s);
  }

  lemma CstrTake(s: seq<byte>, n: nat)
    requires n <= |s|
    ensures Cstr(s[..n]) == Cstr(s)[..Min(n, |Cstr(s)|)]
  {
    CstrIs(s);
    CstrUpTo(s[..n], Min(n, |Cstr(s)|));
  }

  /** An id in the place of the line. */
  lemma IdAsLine(id: seq<byte>, prev: seq<byte>, line: seq<byte>)
    requires |id| == ID_SIZE && |prev| == UT_LINESIZE && line == Strncpy(id, ID_SIZE) + prev[ID_SIZE..]
    ensures AnyMark(line) <==> Cstr(id) in {TILDE, BRACE, BAR}
    ensures line[0] == 0 <==> Empty(id)
    ensures Same(Strncpy(line, ID_SIZE), id)
  {
    hide Strncpy, Cstr;
    var pad := Strncpy(id, ID_SIZE);
    CstrIs(id);
    Field(id, ID_SIZE, 0);
    assert Cstr(id)[..Min(ID_SIZE, |Cstr(id)|)] == Cstr(id);
    assert line[0] == pad[0] && line[1] == pad[1];
    AnyMarkIs(pad);
    EmptyIs(pad);
    Field(line, ID_SIZE, 0);
    CstrTake(line, ID_SIZE);
    assert line[..ID_SIZE] == pad;
  }

  lemma CstrDrop(s: seq<byte>, k: nat)
    requires k <= |Cstr(s)|
    ensures |Cstr(s)| <= |s| && Cstr(s[k..]) == Cstr(s)[k..]
  {
    CstrIs(s);
    CstrUpTo(s[k..], |Cstr(s)| - k);
  }

  /** A line that is a terminal comes back, with its id, if it fits. */
  lemma TtyAsLine(ux: Utmpx, line: seq<byte>)
    requires ux.Sized() && !Empty(ux.line) && line == Strncpy(ux.line, UT_LINESIZE)
    ensures line[0] != 0
    ensures IsTty(line) ==> !AnyMark(line)
    ensures TtyOk(ux) <==>
      && IsTty(line) && Same(Strncpy(line, UT_LINESIZE) + Zeros(LINE_MORE), ux.line)
      && Same(Strncpy(line[3..], ID_SIZE), ux.id)
  {
    hide Strncpy, Cstr;
    var c := Cstr(ux.line);
    var cut := c[..Min(UT_LINESIZE, |c|)];
    CstrIs(ux.line);
    Field(ux.line, UT_LINESIZE, LINE_MORE);
    assert |c| <= UT_LINESIZE ==> cut == c;
    EmptyIs(line);
    AnyMarkIs(line);
    IsTtyIs(line);
    if IsTty(line) {
      CstrDrop(line, 3);
      Field(line[3..], ID_SIZE, 0);
    }
  }

  lemma TtyStays(line: seq<byte>)
    requires |line| == UT_LINESIZE && IsTty(line)
    ensures !Empty(Strncpy(line, UT_LINESIZE) + Zeros(LINE_MORE))
  {
    hide Strncpy, Cstr;
    IsTtyIs(line);
    Field(line, UT_LINESIZE, LINE_MORE);
    CstrStrncpy(line, UT_LINESIZE, LINE_MORE);
  }

  lemma ProcessRoundTrip(ux: Utmpx, prev: Utmp)
    requires ux.Sized() && prev.Sized() && ux.typ.Process()
    ensures RoundTrips(ux, prev) <==> Conventional(ux, prev)
  {
    hide Strncpy, Cstr, HidePid, HiddenPid, PidFits, NameFor, HostFor;
    HostBack(ux);
    var h := HidePid(HostFor(ux), ux.pid);
    if h.Some? {
      var u := Utmp(LineFor(ux, prev.line), NameFor(ux), h.value, ux.sec);
      UserBack(ux, u.name);
      EmptyIs(ux.line);
      EmptyIs(u.name);
      ZerosEmpty(UTX_LINESIZE);
      if Empty(ux.line) {
        IdAsLine(ux.id, prev.line, u.line);
        if IsTty(u.line) { TtyStays(u.line); }
      } else {
        TtyAsLine(ux, u.line);
      }
    }
  }

  /** A record comes back equal from utmp, whatever its buffer held, if and only if it follows the conventions. */
  lemma RoundTrip(ux: Utmpx, prev: Utmp)
    requires ux.Sized() && prev.Sized()
    ensures RoundTrips(ux, prev) <==> Conventional(ux, prev)
  {
    if ux.typ.EMPTY? {
      EmptyRoundTrip(ux, prev);
    } else if ux.typ.Process() {
      ProcessRoundTrip(ux, prev);
    } else if !ux.typ.OTHER? {
      MarkRoundTrip(ux, prev);
    }
  }

  // Overruns.

  /** An overrun happens exactly if there is a pid, and it is negative in 64 bits or the host fills its field. */
  lemma OverrunExactly(ux: Utmpx, prev: Utmp)
    requires ux.Sized() && prev.Sized()
    ensures Encode(ux, prev).Overrun? <==>
      && !ux.typ.OTHER? && ux.pid != 0
      && ((!ux.typ.EMPTY? && |Cstr(ux.host)| >= UT_HOSTSIZE) || (ux.pid < 0 && ULONG_MAX > 0xFFFF_FFFF))
  {
    hide Strncpy, Cstr, HidePid;
    var src := if ux.typ.EMPTY? then [] else ux.host;
    PidRoundTrip(src, HostFor(ux), ux.pid);
    Field(src, UT_HOSTSIZE, 0);
    assert Cstr([]) == [] by { CstrUpTo([], 0); }
  }

  /** A login whose host fills the field. */
  lemma FullHostOverruns(prev: Utmp) returns (ux: Utmpx)
    requires prev.Sized()
    ensures ux.Sized() && ux.pid == 1 && Encode(ux, prev).Overrun?
  {
    var host := seq(UTX_HOSTSIZE, i => 120);
    ux := NO_ONE.(typ := LOGIN_PROCESS, pid := 1, host := host);
    LongCstr(host, UTX_HOSTSIZE);
    OverrunExactly(ux, prev);
  }

  /** A boot record with a negative pid, in 64 bits. */
  lemma NegativePidOverruns(prev: Utmp) returns (ux: Utmpx)
    requires prev.Sized() && ULONG_MAX > 0xFFFF_FFFF
    ensures ux.Sized() && ux.pid == -1 && Empty(ux.host) && Encode(ux, prev).Overrun?
  {
    ux := NO_ONE.(typ := BOOT_TIME, pid := -1);
    ZerosEmpty(UTX_HOSTSIZE);
    OverrunExactly(ux, prev);
  }
}
