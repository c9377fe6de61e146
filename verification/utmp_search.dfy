/** Reading the utmp file as a stream of utmpx records, and searching in it. */
module UtmpSearch {
  import opened Memory
  import opened CStrings
  import opened Utmp
  import opened UtmpCodec
  import opened UtmpRecords
  import opened UtmpFields

  predicate AllSized(entries: seq<Utmp>) { forall u :: u in entries ==> u.Sized() }

  // The records of the file, by their strings.

  predicate Mark(line: seq<byte>) { line in {TILDE, BRACE, BAR} }

  predicate IsProcess(u: Utmp) { !Nothing(u) && !Mark(Cstr(u.line)) }

  /** Somebody is logged in, or asked to log in. */
  predicate IsLogin(u: Utmp) { IsProcess(u) && Cstr(u.name) != INIT && Cstr(u.name) != [] }

  /** The id that is cut from the line of a process, behind "tty" or from its beginning. */
  function IdOf(u: Utmp): seq<byte> {
    var line := Cstr(u.line);
    Cut(if TTY <= line then line[3..] else line, ID_SIZE)
  }

  function TerminalOf(u: Utmp): seq<byte> { if TTY <= Cstr(u.line) then Cstr(u.line) else [] }

  /** What a search looks for; the last three arise when the key is the buffer that the search itself overwrites. */
  datatype Search = ById(id: Utmpx) | ByLine(line: Utmpx) | AnyProcess | AnyLogin | Anything

  /** The entries of the file that a search is for: processes of whatever type with the id, or records of the type. */
  predicate Wanted(how: Search, u: Utmp) {
    match how
    case ById(id) =>
      if id.typ.Process() then IsProcess(u) && IdOf(u) == Cstr(id.id)
      else if id.typ.EMPTY? then Nothing(u)
      else !Nothing(u) && Meaning(Cstr(u.line), Cstr(u.name)) == Some(id.typ)
    case ByLine(line) => IsLogin(u) && TerminalOf(u) == Cstr(line.line)
    case AnyProcess => IsProcess(u)
    case AnyLogin => IsLogin(u)
    case Anything => Nothing(u) || Meaning(Cstr(u.line), Cstr(u.name)).Some?
  }

  // The tests of the code, on converted records.

  predicate IdMatches(next: Utmpx, id: Utmpx) {
    if id.typ.Process() then next.typ.Process() && Same(next.id, id.id) else next.typ == id.typ
  }

  predicate LineMatches(next: Utmpx, line: Utmpx) {
    (next.typ.LOGIN_PROCESS? || next.typ.USER_PROCESS?) && Same(next.line, line.line)
  }

  predicate Matches(how: Search, next: Utmpx) {
    match how
    case ById(id) => IdMatches(next, id)
    case ByLine(line) => LineMatches(next, line)
    case AnyProcess => next.typ.Process()
    case AnyLogin => next.typ.LOGIN_PROCESS? || next.typ.USER_PROCESS?
    case Anything => true
  }

  lemma HasMeans(field: seq<byte>, s: seq<byte>)
    requires Has(field, s) && forall i :: 0 <= i < |s| ==> s[i] != 0
    ensures Cstr(field) == s
  {
    CstrUpTo(field, |s|);
  }

  lemma NoNul(line: seq<byte>)
    ensures forall i :: 0 <= i < |Cstr(line)| ==> Cstr(line)[i] != 0
  {
    CstrIs(line);
  }

  /** The strings of a converted record. */
  lemma ConvertedIs(u: Utmp)
    requires u.Sized() && Decode(u).Some?
    ensures var ux := Decode(u).value;
      && (ux.typ.Process() <==> IsProcess(u))
      && (ux.typ.LOGIN_PROCESS? || ux.typ.USER_PROCESS? <==> IsLogin(u))
      && (ux.typ.EMPTY? <==> Nothing(u))
      && (ux.typ.Process() ==> Cstr(ux.id) == IdOf(u) && Cstr(ux.line) == TerminalOf(u))
      && (!ux.typ.Process() ==> Cstr(ux.line) == [])
  {
    hide Has, Cstr;
    ReadFields(u);
    NoNul(u.line);
    var ux := Decode(u).value;
    hide Decode;
    ZerosEmpty(UTX_LINESIZE);
    if ux.typ.Process() {
      HasMeans(ux.id, IdOf(u));
      HasMeans(ux.line, TerminalOf(u));
    } else if !Nothing(u) {
      HasMeans(ux.line, []);
    }
  }

  /** The tests of the code, made on the conversion, choose the wanted entries. */
  lemma WantedIs(how: Search, u: Utmp)
    requires u.Sized()
    ensures Wanted(how, u) <==> Decode(u).Some? && Matches(how, Decode(u).value)
  {
    hide Has, Cstr, Nothing;
    ReadFields(u);
    hide Decode;
    if Decode(u).Some? { ConvertedIs(u); }
  }

  // A key that was itself read from the file.

  /**
    A search with a record of the file as its key: for a process, every process with the same id, be its type the same
    or not; for a mark, the marks with the same line and name; for a blank record, the blank ones.
  */
  lemma WantedByRecord(u: Utmp, v: Utmp)
    requires u.Sized() && v.Sized() && Decode(u).Some? && Decode(v).Some?
    ensures Wanted(ById(Decode(v).value), u) <==>
      || (IsProcess(u) && IsProcess(v) && IdOf(u) == IdOf(v))
      || (Mark(Cstr(u.line)) && Cstr(u.line) == Cstr(v.line) && Cstr(u.name) == Cstr(v.name))
      || (Nothing(u) && Nothing(v))
  {
    hide Has, Cstr;
    ReadFields(u);
    ReadFields(v);
    hide Decode;
    ConvertedIs(v);
  }

  /** What `__utmp_equal` takes for the same process, the search by id finds, whatever the two types are. */
  lemma EqualIsWanted(u: Utmp, v: Utmp)
    requires u.Sized() && v.Sized() && UtmpEqual(u, v)
    ensures Decode(v).Some? && Wanted(ById(Decode(v).value), u)
  {
    hide Has, Cstr;
    EqualAgrees(u, v);
    hide Decode, UtmpEqual;
    ConvertedIs(u);
    ConvertedIs(v);
    WantedByRecord(u, v);
  }

  /** The search by line: logins on the same terminal; a key without terminal finds the logins without one. */
  lemma WantedByLine(u: Utmp, v: Utmp)
    requires u.Sized() && v.Sized() && Decode(v).Some?
    ensures Wanted(ByLine(Decode(v).value), u) <==>
      IsLogin(u) && TerminalOf(u) == if IsProcess(v) then TerminalOf(v) else []
  {
    hide Cstr, Decode;
    ConvertedIs(v);
  }

  lemma EqualIsWantedByLine(u: Utmp, v: Utmp)
    requires u.Sized() && v.Sized() && UtmpEqual(u, v)
    ensures Decode(v).Some? && (Wanted(ByLine(Decode(v).value), u) <==> IsLogin(u))
  {
    hide Cstr;
    EqualAgrees(u, v);
    hide Decode, UtmpEqual;
    ConvertedIs(v);
    WantedByLine(u, v);
  }

  /** The key of a search: a record of the caller, or the static buffer that the last call returned. */
  datatype Key = Own(record: Utmpx) | StaticBuffer

  class Reader {
    const entries: seq<Utmp>       // the utmp file
    var pos: nat
    var buffer: Utmpx              // the static buffer of __getutxent

    ghost predicate Valid()
      reads this
    {
      AllSized(entries) && pos <= |entries|
    }

    method Getutent() returns (u: Option<Utmp>)
      requires Valid()
      modifies this`pos
      ensures Valid()
      ensures u == if old(pos) < |entries| then Some(entries[old(pos)]) else None
      ensures pos == if old(pos) < |entries| then old(pos) + 1 else old(pos)
    {
      if pos == |entries| { return None; }
      u := Some(entries[pos]);
      pos := pos + 1;
    }

    /** The entry just read is r; nothing beyond it has been read. */
    ghost predicate JustRead(r: Utmpx)
      requires Valid()
      reads this
    {
      pos > 0 && Decode(entries[pos - 1]) == Some(r)
    }

    /** __getutxent; None for the null pointer, else what `buffer` holds.  It passes over what does not convert. */
    method Getutxent() returns (r: Option<Utmpx>)
      requires Valid()
      modifies this
      ensures Valid() && pos >= old(pos)
      ensures r == None ==> pos == |entries| && forall i :: old(pos) <= i < |entries| ==> Decode(entries[i]) == None
      ensures r.Some? ==> old(pos) < pos && JustRead(r.value) && buffer == r.value
      ensures r.Some? ==> forall i :: old(pos) <= i < pos - 1 ==> Decode(entries[i]) == None
    {
      while true
        invariant Valid() && pos >= old(pos)
        invariant forall i :: old(pos) <= i < pos ==> Decode(entries[i]) == None
        decreases |entries| - pos
      {
        var tmp := Getutent();
        if tmp == None { return None; }
        buffer := if Decode(tmp.value).Some? then Decode(tmp.value).value else NO_ONE;
        if Decode(tmp.value).Some? { return Some(buffer); }
      }
    }

    /** The record behind the key, as it is now. */
    function Record(key: Key): Utmpx
      reads this
    {
      if key.Own? then key.record else buffer
    }

    /** What getutxid looks for when it is called with this key. */
    ghost function SearchById(id: Key): Search
      reads this
    {
      if id.Own? then ById(id.record) else if buffer.typ.Process() then AnyProcess else Anything
    }

    ghost function SearchByLine(line: Key): Search
    {
      if line.Own? then ByLine(line.record) else AnyLogin
    }

    /** From an entry on, the search has come to the first one that is wanted, and read no further. */
    ghost predicate Found(from: nat, how: Search, r: Option<Utmpx>)
      requires Valid()
      reads this
    {
      if r.Some? then
        && from < pos && JustRead(r.value) && Wanted(how, entries[pos - 1])
        && forall i :: from <= i < pos - 1 ==> !Wanted(how, entries[i])
      else
        pos == |entries| && forall i :: from <= i < |entries| ==> !Wanted(how, entries[i])
    }

    /** No entry before the cursor is wanted. */
    ghost predicate Passed(from: nat, how: Search)
      requires Valid()
      reads this
    {
      from <= pos && forall i :: from <= i < pos ==> !Wanted(how, entries[i])
    }

    /** The next record, with what the test of the code says of it. */
    method Advance(ghost from: nat, ghost how: Search) returns (next: Option<Utmpx>)
      requires Valid() && Passed(from, how)
      modifies this
      ensures Valid() && pos >= old(pos)
      ensures next == None ==> Found(from, how, None)
      ensures next.Some? ==> pos > old(pos) && buffer == next.value
      ensures next.Some? ==> if Matches(how, next.value) then Found(from, how, next) else Passed(from, how)
    {
      hide Decode, Wanted, Matches;
      next := Getutxent();
      forall i | old(pos) <= i < pos ensures Wanted(how, entries[i]) <==>
        Decode(entries[i]).Some? && Matches(how, Decode(entries[i]).value)
      {
        WantedIs(how, entries[i]);
      }
    }

    method Getutxid(id: Key) returns (r: Option<Utmpx>)
      requires Valid()
      modifies this
      ensures Valid() && Found(old(pos), old(SearchById(id)), r)
    {
      hide Found, Passed;
      ghost var from, how := pos, SearchById(id);
      assert Passed(from, how) by { Starts(how); }
      if Record(id).typ.Process() {
        while true
          invariant Valid() && Passed(from, how)
          decreases |entries| - pos
        {
          var next := Advance(from, how);
          if next == None { return None; }
          if next.value.typ.Process() {
            if Same(next.value.id, Record(id).id) { return next; }
          }
        }
      } else {
        while true
          invariant Valid() && Passed(from, how)
          decreases |entries| - pos
        {
          var next := Advance(from, how);
          if next == None { return None; }
          if next.value.typ == Record(id).typ { return next; }
        }
      }
    }

    method Getutxline(line: Key) returns (r: Option<Utmpx>)
      requires Valid()
      modifies this
      ensures Valid() && Found(old(pos), SearchByLine(line), r)
    {
      hide Found, Passed;
      ghost var from, how := pos, SearchByLine(line);
      assert Passed(from, how) by { Starts(how); }
      while true
        invariant Valid() && Passed(from, how)
        decreases |entries| - pos
      {
        var next := Advance(from, how);
        if next == None { return None; }
        if (next.value.typ.LOGIN_PROCESS? || next.value.typ.USER_PROCESS?) && Same(next.value.line, Record(line).line) {
          return next;
        }
      }
    }

    lemma Starts(how: Search)
      requires Valid()
      ensures Passed(pos, how)
    {
    }
  }
}
