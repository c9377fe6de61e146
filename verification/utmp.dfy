/** Records of the utmp and utmpx files, and the conversion between them. */
module Utmp {
  import opened Memory
  import opened CStrings

  // Sizes of the fields, as far as the conversion relies on them.
  type HostSize = n: nat | n >= 3 witness 16
  type NameSize = n: nat | n >= 9 witness 16
  type IdSize = n: nat | n >= 2 witness 4

  const UT_HOSTSIZE: HostSize
  const UT_NAMESIZE: NameSize
  const ID_SIZE: IdSize                                   // sizeof (ux->ut_id)
  const UT_LINESIZE: nat := ID_SIZE + 3 + LINE_REST
  const LINE_REST: nat
  // struct utmpx has at least the room of struct utmp.
  const UTX_HOSTSIZE: nat := UT_HOSTSIZE + HOST_MORE      // __UT_HOSTSIZE
  const UTX_NAMESIZE: nat := UT_NAMESIZE + NAME_MORE      // __UT_NAMESIZE
  const UTX_LINESIZE: nat := UT_LINESIZE + LINE_MORE      // __UT_LINESIZE
  const HOST_MORE: nat
  const NAME_MORE: nat
  const LINE_MORE: nat
  const ADDR_SIZE: nat                                    // sizeof (ux->ut_addr_v6)

  datatype UtType =
    | EMPTY | RUN_LVL | BOOT_TIME | NEW_TIME | OLD_TIME
    | INIT_PROCESS | LOGIN_PROCESS | USER_PROCESS | DEAD_PROCESS
    | ACCOUNTING | OTHER(code: int)
  {
    predicate Process() { INIT_PROCESS? || LOGIN_PROCESS? || USER_PROCESS? || DEAD_PROCESS? }
  }

  datatype Utmp = Utmp(line: seq<byte>, name: seq<byte>, host: seq<byte>, time: int)
  {
    predicate Sized() { |line| == UT_LINESIZE && |name| == UT_NAMESIZE && |host| == UT_HOSTSIZE }
  }

  datatype Utmpx = Utmpx(
    typ: UtType, pid: int, line: seq<byte>, id: seq<byte>, user: seq<byte>, host: seq<byte>,
    exit: (int, int), session: int, sec: int, usec: int, addr: seq<byte>)
  {
    predicate Sized() {
      && |line| == UTX_LINESIZE && |id| == ID_SIZE && |user| == UTX_NAMESIZE && |host| == UTX_HOSTSIZE
      && |addr| == ADDR_SIZE && -0x8000_0000 <= pid < 0x8000_0000
    }
  }

  const TILDE: seq<byte> := [126]
  const BRACE: seq<byte> := [123]
  const BAR: seq<byte> := [124]
  const TTY: seq<byte> := [116, 116, 121]
  const RUNLEVEL: seq<byte> := [114, 117, 110, 108, 101, 118, 101, 108]
  const REBOOT: seq<byte> := [114, 101, 98, 111, 111, 116]
  const ACCT: seq<byte> := [97, 99, 99, 116]
  const DATE: seq<byte> := [100, 97, 116, 101]
  const INIT: seq<byte> := [73, 78, 73, 84]
  const LOGIN: seq<byte> := [76, 79, 71, 73, 78]

  /** strncmp of two whole fields is 0. */
  predicate Same(a: seq<byte>, b: seq<byte>) { Cstr(a) == Cstr(b) }

  /** __utmpx_equal */
  predicate UtmpxEqual(u1: Utmpx, u2: Utmpx) {
    && u1.typ == u2.typ && u1.pid == u2.pid
    && Same(u1.line, u2.line) && Same(u1.id, u2.id) && Same(u1.user, u2.user) && Same(u1.host, u2.host)
    && u1.exit == u2.exit && u1.session == u2.session && u1.sec == u2.sec && u1.usec == u2.usec && u1.addr == u2.addr
  }

  // From utmp to utmpx.

  predicate Blank(u: Utmp)
    requires u.Sized()
  {
    u.line[0] == 0 && u.name[0] == 0 && u.host[0] == 0
  }

  /** The line is the single character c. */
  predicate Marked(line: seq<byte>, c: seq<byte>)
    requires |line| >= 2 && |c| == 1
  {
    line[0] == c[0] && line[1] == 0
  }

  /** None if the record has no counterpart. */
  function TypeOf(u: Utmp): Option<UtType>
    requires u.Sized()
  {
    var name := Cstr(u.name);
    if Marked(u.line, TILDE) then
      if name == RUNLEVEL then Some(RUN_LVL) else if name == REBOOT then Some(BOOT_TIME)
      else if name == ACCT then Some(ACCOUNTING) else None
    else if Marked(u.line, BRACE) then
      if name == DATE then Some(NEW_TIME) else None
    else if Marked(u.line, BAR) then
      if name == DATE then Some(OLD_TIME) else None
    else
      Some(if name == INIT then INIT_PROCESS else if name == LOGIN then LOGIN_PROCESS
           else if name == [] then DEAD_PROCESS else USER_PROCESS)
  }

  predicate IsTty(line: seq<byte>) { TTY <= line }

  /** The pid behind the NUL of the host, 0 if there is none. */
  function HiddenPid(host: seq<byte>): int
    requires |host| == UT_HOSTSIZE
  {
    var k := |Cstr(host)|;
    if k >= UT_HOSTSIZE - 2 || host[k + 1] == 0 then 0
    else
      var n := Strtoul(Cstr(host[k + 1..]));
      if n == None then 0 else Int(n.value)
  }

  const NO_ONE := Utmpx(EMPTY, 0, Zeros(UTX_LINESIZE), Zeros(ID_SIZE), Zeros(UTX_NAMESIZE), Zeros(UTX_HOSTSIZE),
                        (0, 0), 0, 0, 0, Zeros(ADDR_SIZE))

  /** __utmp_to_utmpx */
  function Decode(u: Utmp): (r: Option<Utmpx>)
    requires u.Sized()
    ensures r.Some? ==> r.value.Sized()
  {
    if Blank(u) then Some(NO_ONE)
    else if TypeOf(u) == None then None
    else
      var typ := TypeOf(u).value;
      var tty := typ.Process() && IsTty(u.line);
      Some(NO_ONE.(
        typ := typ,
        user := if typ.LOGIN_PROCESS? || typ.USER_PROCESS? then Strncpy(u.name, UT_NAMESIZE) + Zeros(NAME_MORE)
                else NO_ONE.user,
        line := if tty then Strncpy(u.line, UT_LINESIZE) + Zeros(LINE_MORE) else NO_ONE.line,
        id := if tty then Strncpy(u.line[3..], ID_SIZE)
              else if typ.Process() then Strncpy(u.line, ID_SIZE)
              else NO_ONE.id,
        host := Strncpy(u.host, UT_HOSTSIZE) + Zeros(HOST_MORE),
        pid := HiddenPid(u.host),
        sec := u.time))
  }

  // From utmpx to utmp.

  /** Overrun: a string in the host field that has no end, or a pid too long for the buffer it is printed into. */
  datatype Encoded = Refused | Overrun | Written(u: Utmp)

  /** `prev` is what the line holds before. */
  function LineFor(ux: Utmpx, prev: seq<byte>): (line: seq<byte>)
    requires ux.Sized() && |prev| == UT_LINESIZE && !ux.typ.OTHER?
    ensures |line| == UT_LINESIZE
  {
    var t := ux.typ;
    if t.EMPTY? then Strncpy([], UT_LINESIZE)
    else if t.RUN_LVL? || t.BOOT_TIME? || t.ACCOUNTING? then Strncpy(TILDE, UT_LINESIZE)
    else if t.NEW_TIME? then Strncpy(BRACE, UT_LINESIZE)
    else if t.OLD_TIME? then Strncpy(BAR, UT_LINESIZE)
    else if ux.line[0] != 0 then Strncpy(ux.line, UT_LINESIZE)
    else Strncpy(ux.id, ID_SIZE) + prev[ID_SIZE..]
  }

  function NameFor(ux: Utmpx): (name: seq<byte>)
    requires ux.Sized() && !ux.typ.OTHER?
    ensures |name| == UT_NAMESIZE
  {
    var t := ux.typ;
    Strncpy(if t.RUN_LVL? then RUNLEVEL else if t.BOOT_TIME? then REBOOT else if t.ACCOUNTING? then ACCT
            else if t.NEW_TIME? || t.OLD_TIME? then DATE
            else if t.INIT_PROCESS? then INIT else if t.LOGIN_PROCESS? then LOGIN
            else if t.USER_PROCESS? then ux.user else [], UT_NAMESIZE)
  }

  function HostFor(ux: Utmpx): (host: seq<byte>)
    requires ux.Sized()
    ensures |host| == UT_HOSTSIZE
  {
    Strncpy(if ux.typ.EMPTY? then [] else ux.host, UT_HOSTSIZE)
  }

  /** The host with the pid behind its NUL, if there is room; None for an overrun. */
  function HidePid(host: seq<byte>, pid: int): (r: Option<seq<byte>>)
    requires |host| == UT_HOSTSIZE && -0x8000_0000 <= pid < 0x8000_0000
    ensures r.Some? ==> |r.value| == UT_HOSTSIZE
  {
    CstrIs(host);
    var k := |Cstr(host)|;
    var digits := Decimal(Unsigned(pid));
    if pid == 0 then Some(host)
    else if k == UT_HOSTSIZE || |digits| > 10 then None
    else if |digits| > UT_HOSTSIZE - k - 1 then Some(host)
    else Some(host[..k + 1] + Strncpy(digits, UT_HOSTSIZE - k - 1))
  }

  /** __utmpx_to_utmp */
  function Encode(ux: Utmpx, prev: Utmp): (r: Encoded)
    requires ux.Sized() && prev.Sized()
    ensures r.Written? ==> r.u.Sized()
  {
    if ux.typ.OTHER? then Refused
    else
      var host := HidePid(HostFor(ux), ux.pid);
      if host == None then Overrun else Written(Utmp(LineFor(ux, prev.line), NameFor(ux), host.value, ux.sec))
  }

  // __utmp_equal

  predicate NotProcess(u: Utmp)
    requires u.Sized()
  {
    Blank(u) || ((u.line[0] == TILDE[0] || u.line[0] == BRACE[0] || u.line[0] == BAR[0]) && u.line[1] == 0)
  }

  /** struct utmp has no ut_id here, so the lines decide. */
  predicate UtmpEqual(entry: Utmp, match_: Utmp)
    requires entry.Sized() && match_.Sized()
  {
    !NotProcess(entry) && !NotProcess(match_) && Same(entry.line, match_.line)
  }
}
