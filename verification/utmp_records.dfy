/** The conversion seen from the utmp file: equality, records read and written back, and what the conversion forgets. */
module UtmpRecords {
  import opened Memory
  import opened CStrings
  import opened Utmp
  import opened UtmpCodec

  // Equality of utmp records.

  predicate DecodesToProcess(u: Utmp)
    requires u.Sized()
  {
    Decode(u).Some? && Decode(u).value.typ.Process()
  }

  lemma ProcessIs(u: Utmp)
    requires u.Sized()
    ensures DecodesToProcess(u) <==> !NotProcess(u)
  {
  }

  lemma SameStrncpy(a: seq<byte>, b: seq<byte>, n: nat)
    requires Same(a, b)
    ensures Strncpy(a, n) == Strncpy(b, n)
  {
  }

  lemma SameLine(a: seq<byte>, b: seq<byte>)
    requires |a| >= 3 && |b| >= 3 && Same(a, b)
    ensures IsTty(a) <==> IsTty(b)
    ensures IsTty(a) ==> Same(a[3..], b[3..])
  {
    IsTtyIs(a);
    IsTtyIs(b);
    if IsTty(a) {
      CstrDrop(a, 3);
      CstrDrop(b, 3);
    }
  }

  /** __utmp_equal agrees with the conversion: two process records with the same line, and then the same id. */
  lemma EqualAgrees(entry: Utmp, other: Utmp)
    requires entry.Sized() && other.Sized()
    ensures UtmpEqual(entry, other) <==>
      DecodesToProcess(entry) && DecodesToProcess(other) && Same(entry.line, other.line)
    ensures UtmpEqual(entry, other) ==> Decode(entry).value.id == Decode(other).value.id
    ensures UtmpEqual(entry, other) ==> Decode(entry).value.line == Decode(other).value.line
  {
    hide Strncpy, Cstr;
    ProcessIs(entry);
    ProcessIs(other);
    if Same(entry.line, other.line) {
      SameLine(entry.line, other.line);
      SameStrncpy(entry.line, other.line, UT_LINESIZE);
      SameStrncpy(entry.line, other.line, ID_SIZE);
      if IsTty(entry.line) { SameStrncpy(entry.line[3..], other.line[3..], ID_SIZE); }
    }
  }

  // Records that were read from the file.

  lemma ReadUser(u: Utmp)
    requires u.Sized() && DecodesToProcess(u)
    ensures UserOk(Decode(u).value)
  {
    hide Strncpy, Cstr, HiddenPid;
    ZerosEmpty(UTX_NAMESIZE);
    CstrStrncpy(u.name, UT_NAMESIZE, NAME_MORE);
    CstrIs(u.name);
    assert Cstr(u.name)[..Min(UT_NAMESIZE, |Cstr(u.name)|)] == Cstr(u.name);
  }

  lemma ReadTty(u: Utmp)
    requires u.Sized() && DecodesToProcess(u) && IsTty(u.line)
    ensures !Empty(Decode(u).value.line) && TtyOk(Decode(u).value)
  {
    hide Strncpy, Cstr, HiddenPid;
    var c := Cstr(u.line);
    CstrIs(u.line);
    IsTtyIs(u.line);
    TtyStays(u.line);
    CstrStrncpy(u.line, UT_LINESIZE, LINE_MORE);
    assert c[..Min(UT_LINESIZE, |c|)] == c;
    CstrDrop(u.line, 3);
    Field(u.line[3..], ID_SIZE, 0);
  }

  lemma ReadId(u: Utmp)
    requires u.Sized() && DecodesToProcess(u) && !IsTty(u.line)
    ensures var ux := Decode(u).value;
      && Empty(ux.line) && Cstr(ux.id) !in {TILDE, BRACE, BAR} && ux.id == Strncpy(u.line, ID_SIZE)
      && !(ux.typ.DEAD_PROCESS? && Empty(ux.id) && Empty(ux.host))
  {
    hide Cstr, HiddenPid;
    ZerosEmpty(UTX_LINESIZE);
    var c := Cstr(u.line);
    CstrIs(u.line);
    Field(u.line, ID_SIZE, 0);
    AnyMarkIs(u.line);
    assert |c| < ID_SIZE ==> c[..Min(ID_SIZE, |c|)] == c;
    EmptyIs(u.line);
    EmptyIs(u.name);
    CstrStrncpy(u.host, UT_HOSTSIZE, HOST_MORE);
    EmptyIs(u.host);
  }

  /** The id begins like the line, up to its NUL. */
  lemma ReadIdFirst(line: seq<byte>, prev: seq<byte>, back: seq<byte>)
    requires |line| == UT_LINESIZE == |prev| && !IsTty(line) && (ID_SIZE >= 3 || prev == line)
    requires back == Strncpy(Strncpy(line, ID_SIZE), ID_SIZE) + prev[ID_SIZE..]
    ensures !IsTty(back)
  {
    Field(line, ID_SIZE, 0);
    CstrIs(line);
    assert forall i :: 0 <= i < ID_SIZE && back[i] != 0 ==> back[i] == line[i];
  }

  /** The id of a process without line, written over what the buffer's line held, begins like a terminal. */
  predicate TakenForTty(ux: Utmpx, prev: Utmp)
    requires ux.Sized() && prev.Sized()
  {
    ux.typ.Process() && Empty(ux.line) && IsTty(Strncpy(ux.id, ID_SIZE) + prev.line[ID_SIZE..])
  }

  /**
    A record read from the file and converted back, into any buffer, reads the same if and only if its pid fits and its
    id is not taken for a terminal; and that cannot happen with ids of three bytes or more, or in the record itself.
  */
  lemma ReadBack(u: Utmp, prev: Utmp)
    requires u.Sized() && prev.Sized() && Decode(u).Some?
    ensures var ux := Decode(u).value;
      RoundTrips(ux, prev) <==> PidFits(|Cstr(ux.host)|, ux.pid) && !TakenForTty(ux, prev)
    ensures ID_SIZE >= 3 || prev == u ==> !TakenForTty(Decode(u).value, prev)
  {
    hide Strncpy, Cstr, HiddenPid, Decimal, RoundTrips, UserOk, TtyOk, IsTty;
    var ux := Decode(u).value;
    RoundTrip(ux, prev);
    ZerosEmpty(UTX_LINESIZE);
    ZerosEmpty(ID_SIZE);
    ZerosEmpty(UTX_NAMESIZE);
    ZerosEmpty(UTX_HOSTSIZE);
    CstrStrncpy(u.host, UT_HOSTSIZE, HOST_MORE);
    if ux.typ.Process() {
      ReadUser(u);
      if IsTty(u.line) {
        ReadTty(u);
      } else {
        ReadId(u);
        if ID_SIZE >= 3 || prev == u {
          ReadIdFirst(u.line, prev.line, Strncpy(ux.id, ID_SIZE) + prev.line[ID_SIZE..]);
        }
      }
    }
  }

  /** With ids of three bytes or more the conventions do not depend on what the buffer held. */
  lemma BufferIrrelevant(ux: Utmpx, prev: Utmp, other: Utmp)
    requires ux.Sized() && prev.Sized() && other.Sized() && ID_SIZE >= 3
    ensures Conventional(ux, prev) <==> Conventional(ux, other)
    ensures RoundTrips(ux, prev) <==> RoundTrips(ux, other)
  {
    hide Strncpy, Cstr, PidFits, RoundTrips, UserOk, TtyOk;
    var id := Strncpy(ux.id, ID_SIZE);
    assert forall i :: 0 <= i < 3 ==> (id + prev.line[ID_SIZE..])[i] == (id + other.line[ID_SIZE..])[i];
    RoundTrip(ux, prev);
    RoundTrip(ux, other);
  }

  // What utmp to utmpx forgets.

  /** The same record, as far as strings go. */
  predicate Alike(u: Utmp, v: Utmp) {
    Same(u.line, v.line) && Same(u.name, v.name) && Same(u.host, v.host) && u.time == v.time
  }

  ghost predicate Determined(u: Utmp)
    requires u.Sized()
  {
    forall v: Utmp :: v.Sized() && Decode(v) == Decode(u) ==> Alike(u, v)
  }

  /** The line is a mark, a terminal, or short enough to be an id. */
  predicate LineStored(u: Utmp)
    requires u.Sized()
  {
    NotProcess(u) || IsTty(u.line) || |Cstr(u.line)| < ID_SIZE
  }

  lemma SameField(a: seq<byte>, b: seq<byte>, n: nat, m: nat)
    requires |a| == n == |b| && Strncpy(a, n) + Zeros(m) == Strncpy(b, n) + Zeros(m)
    ensures Same(a, b)
  {
    CstrStrncpy(a, n, m);
    CstrStrncpy(b, n, m);
    CstrIs(a);
    CstrIs(b);
    assert Cstr(a)[..Min(n, |Cstr(a)|)] == Cstr(a) && Cstr(b)[..Min(n, |Cstr(b)|)] == Cstr(b);
  }

  lemma NameDetermined(u: Utmp, v: Utmp)
    requires u.Sized() && v.Sized() && !Blank(u) && !Blank(v) && Decode(u).Some? && Decode(v) == Decode(u)
    ensures Same(u.name, v.name) && Same(u.host, v.host) && u.time == v.time
  {
    hide Strncpy, HiddenPid, Cstr;
    SameField(u.host, v.host, UT_HOSTSIZE, HOST_MORE);
    if Decode(u).value.typ.USER_PROCESS? {
      SameField(u.name, v.name, UT_NAMESIZE, NAME_MORE);
    }
  }

  lemma LineDetermined(u: Utmp, v: Utmp)
    requires u.Sized() && v.Sized() && !Blank(u) && !Blank(v) && Decode(u).Some? && Decode(v) == Decode(u) &&
      LineStored(u)
    ensures Same(u.line, v.line)
  {
    hide Strncpy, HiddenPid, Cstr;
    if !TypeOf(u).value.Process() {
      MarkedIs(u.line, TILDE);
      MarkedIs(u.line, BRACE);
      MarkedIs(u.line, BAR);
      MarkedIs(v.line, TILDE);
      MarkedIs(v.line, BRACE);
      MarkedIs(v.line, BAR);
    } else {
      ZerosEmpty(UTX_LINESIZE);
      if IsTty(u.line) { TtyStays(u.line); }
      if IsTty(v.line) { TtyStays(v.line); }
      assert IsTty(u.line) == IsTty(v.line);
      if IsTty(u.line) {
        SameField(u.line, v.line, UT_LINESIZE, LINE_MORE);
      } else {
        Field(u.line, ID_SIZE, 0);
        Field(v.line, ID_SIZE, 0);
        assert |Cstr(u.line)| < ID_SIZE;
        var c := Cstr(u.line)[..Min(ID_SIZE, |Cstr(u.line)|)];
        assert c == Cstr(u.line);
        assert Cstr(v.line)[..Min(ID_SIZE, |Cstr(v.line)|)] == c;
        assert |Cstr(v.line)| == |c|;
        assert Cstr(v.line)[..|c|] == Cstr(v.line);
      }
    }
  }

  /** A line cut to the size of an id, and then one character more or none. */
  lemma OtherLine(line: seq<byte>) returns (other: seq<byte>)
    requires |line| == UT_LINESIZE && |Cstr(line)| >= ID_SIZE && !IsTty(line)
    ensures |other| == UT_LINESIZE && !IsTty(other) && !Same(line, other) &&
      Strncpy(other, ID_SIZE) == Strncpy(line, ID_SIZE)
    ensures other[0] == line[0] != 0 && other[1] == line[1] != 0
  {
    CstrIs(line);
    var end := if |Cstr(line)| == ID_SIZE then [120] else [];
    other := line[..ID_SIZE] + end + Zeros(UT_LINESIZE - ID_SIZE - |end|);
    CstrUpTo(other, ID_SIZE + |end|);
    CstrTake(other, ID_SIZE);
    CstrTake(line, ID_SIZE);
    assert other[..ID_SIZE] == line[..ID_SIZE];
    assert forall i :: 0 <= i < ID_SIZE ==> other[i] == line[i];
  }

  /** A record with the same conversion and another line. */
  lemma LineForgotten(u: Utmp) returns (v: Utmp)
    requires u.Sized() && !LineStored(u)
    ensures v.Sized() && Decode(v) == Decode(u) && !Same(u.line, v.line)
  {
    hide HiddenPid, Strncpy, Cstr;
    var line := OtherLine(u.line);
    v := u.(line := line);
  }

  /** The mapping is injective exactly at the records that are not blank and have a line that is stored. */
  lemma InjectiveExactly(u: Utmp)
    requires u.Sized() && Decode(u).Some?
    ensures Determined(u) <==> !Blank(u) && LineStored(u)
  {
    if Blank(u) {
      var v := u.(time := u.time + 1);
      assert Decode(v) == Decode(u) && !Alike(u, v);
    } else if !LineStored(u) {
      var v := LineForgotten(u);
      assert Decode(v) == Decode(u) && !Alike(u, v);
    } else {
      forall v: Utmp | v.Sized() && Decode(v) == Decode(u) ensures Alike(u, v) {
        NameDetermined(u, v);
        LineDetermined(u, v);
      }
    }
  }
}
