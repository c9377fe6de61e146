/** The lock word of `__rtld_mrlock_t`: the C expressions on the int `iv` and the record they implement. */
module MrLockWord {
  import opened Bits

  const WRITER: nat := 1
  const RWAIT: nat := 2
  const WWAIT: nat := 4
  const RBITS: nat := 0xFFFF_FFF8 // ~(WRITER | RWAIT | WWAIT) in 32 bits
  const INC: nat := 8
  const TRIES: nat := 5

  /** More threads than this could push the reader count into the sign bit of `iv`. */
  const MAX_THREADS: nat := 0x1000_0000

  datatype Word = Word(writer: bool, rwait: bool, wwait: bool, readers: nat)

  function Encode(w: Word): nat {
    w.readers * INC + (if w.wwait then WWAIT else 0) + (if w.rwait then RWAIT else 0) + (if w.writer then WRITER else 0)
  }

  function Decode(iv: nat): (w: Word)
    ensures Encode(w) == iv
  {
    assert iv / 4 == iv / 2 / 2 && iv / 8 == iv / 4 / 2;
    Word(iv % 2 == 1, iv / 2 % 2 == 1, iv / 4 % 2 == 1, iv / 8)
  }

  // The expressions of the macros, as written there.

  predicate MayRead(oldval: nat) { And(oldval, Or(WRITER, WWAIT)) == 0 }

  function ReaderWord(oldval: nat): nat { Add(And(oldval, RBITS), INC) }

  predicate HasRwait(oldval: nat) { And(oldval, RWAIT) != 0 }

  function UnlockWord(oldval: nat): nat { Add(oldval, 0 - INC) }

  predicate UnlockMustWake(oldval: nat) { And(oldval, Or(RBITS, WWAIT)) == Or(INC, WWAIT) }

  predicate MayWrite(oldval: nat) { And(oldval, RBITS) == 0 }

  function WriterWord(oldval: nat): nat { Add(And(oldval, RWAIT), WRITER) }

  function DoneWord(oldval: nat): nat { Add(oldval, 0 - WRITER) }

  // What they compute.

  lemma EncodeDecode(w: Word)
    ensures Decode(Encode(w)) == w
  {
    EncodeAway(w, Decode(Encode(w)));
  }

  /** Two records with the same word are the same. */
  lemma EncodeAway(v: Word, w: Word)
    requires Encode(v) == Encode(w)
    ensures v == w
  {
    assert v.readers == Encode(v) / INC == Encode(w) / INC == w.readers;
  }

  lemma AddIs(iv: nat, b: int)
    requires 0 <= iv + b < WORD_SIZE
    ensures Add(iv, b) == iv + b
  {
  }

  lemma MaskConstants()
    ensures Or(WRITER, WWAIT) == 5
    ensures Or(INC, WWAIT) == 12
    ensures Or(RBITS, WWAIT) == 0xFFFF_FFFC
    ensures RBITS == WORD_SIZE - 1 - Or(Or(WRITER, RWAIT), WWAIT)
  {
    OrDouble(RBITS, 2); OrDouble(RBITS / 2, 1); OrOne(RBITS / 4);
  }

  lemma MaskFlags(iv: nat)
    ensures And(iv, RWAIT) == iv / 2 % 2 * 2
    ensures And(iv, Or(WRITER, WWAIT)) == iv % 2 + iv / 4 % 2 * 4
  {
    MaskConstants();
    AndDouble(iv, 1); AndOne(iv / 2);
    AndDouble(iv / 2, 1); AndOne(iv / 4);
    assert And(iv, 5) == iv % 2 + 2 * And(iv / 2, 2);
  }

  /** Clearing the low three bits keeps the reader count. */
  lemma MaskReaders(iv: nat)
    requires iv < WORD_SIZE
    ensures And(iv, RBITS) == iv - iv % 8
  {
    Pow2Word();
    AndOnes(iv / 8, 29);
    AndDouble(iv / 4, 0x1FFF_FFFF);
    assert iv / 4 / 2 == iv / 8;
    AndTimesFour(iv, 0x3FFF_FFFE);
  }

  lemma MaskReadersAndWwait(iv: nat)
    requires iv < WORD_SIZE
    ensures And(iv, Or(RBITS, WWAIT)) == iv - iv % 4
  {
    MaskConstants();
    Pow2Word();
    AndOnes(iv / 4, 30);
    AndTimesFour(iv, 0x3FFF_FFFF);
  }

  // Each expression of the macros, read as an operation on the record.

  lemma Tests(iv: nat)
    requires iv < WORD_SIZE
    ensures var w := Decode(iv);
      && (MayRead(iv) <==> !w.writer && !w.wwait)
      && (MayWrite(iv) <==> w.readers == 0)
      && (HasRwait(iv) <==> w.rwait)
      && (UnlockMustWake(iv) <==> w.readers == 1 && w.wwait)
  {
    MaskConstants();
    MaskFlags(iv);
    MaskReaders(iv);
    MaskReadersAndWwait(iv);
  }

  lemma AddOneReader(n: nat)
    requires n + 1 < MAX_THREADS
    ensures Decode(Add(8 * n, INC)) == Word(false, false, false, n + 1)
    ensures Add(8 * n, INC) < WORD_SIZE / 2
  {
    assert Add(8 * n, INC) == Encode(Word(false, false, false, n + 1));
  }

  /** A reader's winning CAS keeps only the count, plus one: it drops RWAIT. */
  lemma ReaderWordIs(iv: nat)
    requires Decode(iv).readers + 1 < MAX_THREADS
    ensures Decode(ReaderWord(iv)) == Word(false, false, false, Decode(iv).readers + 1)
    ensures ReaderWord(iv) < WORD_SIZE / 2
  {
    MaskReaders(iv);
    AddOneReader(Decode(iv).readers);
  }

  /** The writer's winning CAS keeps only RWAIT: it drops WWAIT. */
  lemma WriterWordIs(iv: nat)
    ensures Decode(WriterWord(iv)) == Word(true, Decode(iv).rwait, false, 0)
    ensures WriterWord(iv) < WORD_SIZE / 2
  {
    MaskFlags(iv);
    var w := Word(true, Decode(iv).rwait, false, 0);
    AddIs(And(iv, RWAIT), WRITER);
    hide Add;
    assert WriterWord(iv) == Encode(w);
    EncodeDecode(w);
  }

  /** Subtracting INC from a word with a reader borrows from no flag. */
  lemma UnlockWordIs(iv: nat)
    requires iv < WORD_SIZE && Decode(iv).readers > 0
    ensures var w := Decode(iv); Decode(UnlockWord(iv)) == w.(readers := w.readers - 1)
    ensures UnlockWord(iv) < iv
  {
    var w := Decode(iv);
    hide Decode, Add;
    assert Encode(w.(readers := w.readers - 1)) == iv - INC;
    AddIs(iv, 0 - INC);
    EncodeDecode(w.(readers := w.readers - 1));
  }

  /** Subtracting WRITER from a word with the writer bit clears just that bit. */
  lemma DoneWordIs(iv: nat)
    requires iv < WORD_SIZE && Decode(iv).writer
    ensures Decode(DoneWord(iv)) == Decode(iv).(writer := false)
    ensures DoneWord(iv) < iv
  {
    var w := Decode(iv);
    hide Decode, Add;
    assert Encode(w.(writer := false)) == iv - WRITER;
    AddIs(iv, 0 - WRITER);
    EncodeDecode(w.(writer := false));
  }

  lemma AddFlag(w: Word)
    ensures Encode(w.(rwait := true)) == Encode(w) + if w.rwait then 0 else RWAIT
    ensures Encode(w.(wwait := true)) == Encode(w) + if w.wwait then 0 else WWAIT
  {
  }

  lemma OrTwo(iv: nat)
    ensures Or(iv, 2) == iv + if iv / 2 % 2 == 1 then 0 else 2
    ensures iv < WORD_SIZE / 2 ==> Or(iv, 2) < WORD_SIZE / 2
  {
    hide Or;
    OrDouble(iv, 1);
    OrOne(iv / 2);
  }

  lemma OrFour(iv: nat)
    ensures Or(iv, 4) == iv + if iv / 4 % 2 == 1 then 0 else 4
    ensures iv < WORD_SIZE / 2 ==> Or(iv, 4) < WORD_SIZE / 2
  {
    hide Or;
    OrDouble(iv, 2);
    OrTwo(iv / 2);
    assert iv / 2 / 2 == iv / 4;
  }

  /** `atomic_or` sets one flag and nothing else. */
  lemma OrRwaitIs(iv: nat)
    ensures Decode(Or(iv, RWAIT)) == Decode(iv).(rwait := true)
    ensures iv < WORD_SIZE / 2 ==> Or(iv, RWAIT) < WORD_SIZE / 2
  {
    OrTwo(iv);
    AddFlag(Decode(iv));
    EncodeDecode(Decode(iv).(rwait := true));
    assert Decode(iv).rwait <==> iv / 2 % 2 == 1;
    hide Decode, Encode, Or;
  }

  lemma OrWwaitIs(iv: nat)
    ensures Decode(Or(iv, WWAIT)) == Decode(iv).(wwait := true)
    ensures iv < WORD_SIZE / 2 ==> Or(iv, WWAIT) < WORD_SIZE / 2
  {
    OrFour(iv);
    AddFlag(Decode(iv));
    EncodeDecode(Decode(iv).(wwait := true));
    assert Decode(iv).wwait <==> iv / 4 % 2 == 1;
    hide Decode, Encode, Or;
  }
}
