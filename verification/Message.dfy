/** Message metadata: exit code, level and flags packed in one 64-bit word; and the bounded buffer.
    Models base/pm/stream/message.go and base/pm/stream/buffer.go. */
module Message {
  import opened Wrappers

  type Meta = bv64
  type Short = x: bv64 | x <= 0xffff
  type Word = x: bv64 | x <= 0xffffffff

  const STREAM_FLAG: Short := 1
  const EXIT_SUCCESS_FLAG: Short := 2
  const EXIT_ERROR_FLAG: Short := 4
  const EXIT_FLAGS: Short := 6

  function Join(a: Short, b: Short): Short { a | b }

  /** All flags of a list joined in one word. */
  function Union(flags: seq<Short>): Short {
    if flags == [] then 0 else Join(Union(flags[..|flags| - 1]), flags[|flags| - 1])
  }

  function Coded(code: Word, meta: Meta): Meta { (code << 32) | meta }

  function Pack(code: Word, level: Short, flags: Short): Meta {
    Coded(code, (level << 16) | flags)
  }

  function Level(m: Meta): Short { (m >> 16) & 0xffff }
  function Flags(m: Meta): Short { m & 0xffff }
  function Code(m: Meta): Word { m >> 32 }
  predicate Is(m: Meta, flag: Short) { m & flag != 0 }
  function Set(m: Meta, flag: Short): Meta { m | flag }
  function Base(m: Meta): Meta { m & 0xffffffff }

  lemma PackStep(level: Short, flags: Short, flag: Short)
    ensures Pack(0, level, 0) == level << 16
    ensures Pack(0, level, flags) | flag == Pack(0, level, Join(flags, flag))
  {
  }

  method NewMeta(level: Short, flags: seq<Short>) returns (m: Meta)
    ensures m == Pack(0, level, Union(flags))
  {
    hide Pack, Join;
    m := level << 16;
    PackStep(level, 0, 0);
    for i := 0 to |flags|
      invariant m == Pack(0, level, Union(flags[..i]))
    {
      PackStep(level, Union(flags[..i]), flags[i]);
      assert flags[..i + 1][..i] == flags[..i];
      m := m | flags[i];
    }
    assert flags[..|flags|] == flags;
  }

  lemma PackCode(code: Word, level: Short, flags: Short)
    ensures Coded(code, Pack(0, level, flags)) == Pack(code, level, flags)
  {
  }

  method NewMetaWithCode(code: Word, level: Short, flags: seq<Short>) returns (m: Meta)
    ensures m == Pack(code, level, Union(flags))
  {
    hide Pack, Union, Coded;
    var meta := NewMeta(level, flags);
    m := Coded(code, meta);
    PackCode(code, level, Union(flags));
  }

  /** Packing loses nothing. */
  lemma Unpack(code: Word, level: Short, flags: Short)
    ensures var m := Pack(code, level, flags);
      Code(m) == code && Level(m) == level && Flags(m) == flags
  {
  }

  /** `Base` drops the code and nothing else. */
  lemma BaseDropsCode(m: Meta, flag: Short)
    ensures Code(Base(m)) == 0 && Level(Base(m)) == Level(m)
    ensures Is(Base(m), flag) == Is(m, flag)
  {
  }

  /** `Set` adds flags and nothing else: code and level survive. */
  lemma SetKeepsCode(m: Meta, flag: Short)
    ensures Code(Set(m, flag)) == Code(m) && Level(Set(m, flag)) == Level(m)
  {
  }

  /** Whether a flag is set does not depend on setting another one. */
  lemma SetFlag(m: Meta)
    ensures Is(Set(m, STREAM_FLAG), STREAM_FLAG)
    ensures Is(Set(m, STREAM_FLAG), EXIT_SUCCESS_FLAG) == Is(m, EXIT_SUCCESS_FLAG)
    ensures Is(Set(m, STREAM_FLAG), EXIT_ERROR_FLAG) == Is(m, EXIT_ERROR_FLAG)
  {
  }

  lemma ExitFlags(m: Meta)
    ensures Is(m, EXIT_FLAGS) <==> Is(m, EXIT_SUCCESS_FLAG) || Is(m, EXIT_ERROR_FLAG)
  {
  }

  // ---- the word and its fields -----------------------------------------------------------------

  const LEVEL_STDOUT := 1
  const LEVEL_STDERR := 2
  const LEVEL_CRITICAL := 9

  predicate IsResultLevel(level: nat) {
    20 <= level <= 23 || level == 30
  }

  /** The metadata of a message as its readers see it. */
  datatype Fields = Fields(code: nat, level: nat, streamed: bool, success: bool, failure: bool) {
    predicate IsExit() { success || failure }
    function WithoutCode(): Fields { this.(code := 0) }
    function Streamed(): Fields { this.(streamed := true) }
  }

  function Read(m: Meta): Fields {
    Fields(Code(m) as nat, Level(m) as nat,
           Is(m, STREAM_FLAG), Is(m, EXIT_SUCCESS_FLAG), Is(m, EXIT_ERROR_FLAG))
  }

  /** The bit operations are the field operations: dropping the code leaves level and flags, setting
      the stream flag leaves code, level and exit flags, and the exit test is the one on the fields. */
  lemma BitsAreFields(m: Meta)
    ensures Read(Base(m)) == Read(m).WithoutCode()
    ensures Read(Set(m, STREAM_FLAG)) == Read(m).Streamed()
    ensures Is(m, EXIT_FLAGS) == Read(m).IsExit()
  {
    hide Code, Level, Is, Set, Base;
    BaseDropsCode(m, STREAM_FLAG);
    BaseDropsCode(m, EXIT_SUCCESS_FLAG);
    BaseDropsCode(m, EXIT_ERROR_FLAG);
    SetKeepsCode(m, STREAM_FLAG);
    SetFlag(m);
    ExitFlags(m);
  }

  // ---- the bounded buffer ------------------------------------------------------------------

  function Concat(texts: seq<string>): string {
    if texts == [] then "" else Concat(texts[..|texts| - 1]) + texts[|texts| - 1]
  }

  class Buffer<T> {
    var list: seq<T>
    const size: nat

    ghost predicate Valid()
      reads this
    {
      |list| <= size
    }

    constructor (size: nat)
      ensures Valid() && list == [] && this.size == size
    {
      list := [];
      this.size := size;
    }

    /** Push at the back, evict at the front: the list is always the last `size` of what was appended. */
    method Append(x: T)
      requires Valid()
      modifies this
      ensures Valid() && list == LastN(old(list) + [x], size)
    {
      list := list + [x];
      if |list| > size {
        list := list[1..];
      }
    }
  }

  /** `Buffer.String`. */
  method Text(b: Buffer<string>) returns (s: string)
    ensures s == Concat(b.list)
  {
    s := "";
    for i := 0 to |b.list|
      invariant s == Concat(b.list[..i])
    {
      assert b.list[..i + 1][..i] == b.list[..i];
      s := s + b.list[i];
    }
    assert b.list[..|b.list|] == b.list;
  }
}
