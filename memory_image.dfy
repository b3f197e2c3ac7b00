/**
 * The 64 KB address space shared by the CPU hooks, the port dispatcher and the
 * rasterizer: 16 KB of ROM at 0x0000-0x3FFF followed by 48 KB of RAM.
 *
 * Both program variants (main.c and old_main.c) keep an identical
 * `uint8_t memory[65536]` with identical read/write hooks and ROM loader, so the
 * operations on the array are defined here once; each machine class owns its array.
 */
module MemoryImage {
  import opened Wrappers

  const MEMORY_SIZE: nat := 0x1_0000
  /** First writable address: writes below it are silently dropped. */
  const ROM_SIZE: nat := 0x4000

  /** A 16-bit address (`uint16_t`). */
  type Addr = a: int | 0 <= a < 0x1_0000

  /** The image after `write_byte(addr, val)`: exactly one RAM byte replaced, ROM immutable. */
  function Written(mem: seq<bv8>, addr: Addr, val: bv8): (m: seq<bv8>)
    requires |mem| == MEMORY_SIZE
    ensures |m| == MEMORY_SIZE
    ensures forall a :: 0 <= a < MEMORY_SIZE ==>
      m[a] == (if a == addr && ROM_SIZE <= a then val else mem[a])
  {
    if addr >= ROM_SIZE then mem[addr := val] else mem
  }

  /** Reading back after a write: the written value in RAM, the previous value in ROM. */
  lemma ReadAfterWrite(mem: seq<bv8>, addr: Addr, val: bv8, other: Addr)
    requires |mem| == MEMORY_SIZE
    ensures Written(mem, addr, val)[addr] == (if addr < ROM_SIZE then mem[addr] else val)
    ensures other != addr ==> Written(mem, addr, val)[other] == mem[other]
  {
  }

  /** `read_byte`: every 16-bit address is readable. */
  function ReadByte(memory: array<bv8>, addr: Addr): bv8
    requires memory.Length == MEMORY_SIZE
    reads memory
  {
    memory[addr]
  }

  /** `write_byte`: the CPU's memory-write hook. */
  method WriteByte(memory: array<bv8>, addr: Addr, val: bv8)
    requires memory.Length == MEMORY_SIZE
    modifies memory
    ensures memory[..] == Written(old(memory[..]), addr, val)
    ensures ReadByte(memory, addr) == if addr < ROM_SIZE then old(ReadByte(memory, addr)) else val
  {
    if addr >= ROM_SIZE {
      memory[addr] := val;
    }
  }

  /** The RAM-clearing `memset(memory + ROM_SIZE, 0, 65536 - ROM_SIZE)`. */
  method ClearRam(memory: array<bv8>)
    requires memory.Length == MEMORY_SIZE
    modifies memory
    ensures forall a :: 0 <= a < ROM_SIZE ==> memory[a] == old(memory[a])
    ensures forall a :: ROM_SIZE <= a < MEMORY_SIZE ==> memory[a] == 0
  {
    var i := ROM_SIZE;
    while i < MEMORY_SIZE
      invariant ROM_SIZE <= i <= MEMORY_SIZE
      invariant forall a :: 0 <= a < ROM_SIZE ==> memory[a] == old(memory[a])
      invariant forall a :: ROM_SIZE <= a < i ==> memory[a] == 0
    {
      memory[i] := 0;
      i := i + 1;
    }
  }

  /** How many bytes `fread(memory, 1, ROM_SIZE, f)` stores from a file of these contents. */
  function BytesRead(data: seq<bv8>): (n: nat)
    ensures n <= ROM_SIZE && n <= |data|
    ensures n == ROM_SIZE || n == |data|
  {
    if |data| < ROM_SIZE then |data| else ROM_SIZE
  }

  /**
   * `load_rom` succeeds when the file opens and yields a full 16 KB; a longer file is
   * accepted too, since only its first ROM_SIZE bytes are read.
   */
  predicate RomAccepted(file: Option<seq<bv8>>)
  {
    file.Some? && |file.value| >= ROM_SIZE
  }

  /**
   * The image after `load_rom`. A file that does not open changes nothing; a short
   * file has had its bytes stored by `fread` before the process exits; an accepted
   * file fills the ROM and the RAM is cleared.
   */
  function AfterLoad(mem: seq<bv8>, file: Option<seq<bv8>>): (m: seq<bv8>)
    requires |mem| == MEMORY_SIZE
    ensures |m| == MEMORY_SIZE
  {
    match file
    case None => mem
    case Some(data) =>
      var n := BytesRead(data);
      seq(MEMORY_SIZE, a requires 0 <= a < MEMORY_SIZE =>
        if a < n then data[a] else if n == ROM_SIZE then 0 else mem[a])
  }

  /**
   * An accepted ROM image determines the whole memory: the ROM holds the file's first
   * 16 KB, the RAM is zero, and nothing of the earlier contents survives.
   */
  lemma LoadedImage(mem: seq<bv8>, other: seq<bv8>, file: Option<seq<bv8>>)
    requires |mem| == MEMORY_SIZE && |other| == MEMORY_SIZE
    requires RomAccepted(file)
    ensures AfterLoad(mem, file)[..ROM_SIZE] == file.value[..ROM_SIZE]
    ensures forall a :: ROM_SIZE <= a < MEMORY_SIZE ==> AfterLoad(mem, file)[a] == 0
    ensures AfterLoad(mem, file) == AfterLoad(other, file)
  {
    var m, m' := AfterLoad(mem, file), AfterLoad(other, file);
    assert forall a :: 0 <= a < MEMORY_SIZE ==> m[a] == m'[a];
  }

  /** A rejected load leaves every byte past the ones `fread` managed to store untouched. */
  lemma RejectedLoad(mem: seq<bv8>, file: Option<seq<bv8>>)
    requires |mem| == MEMORY_SIZE
    requires !RomAccepted(file)
    ensures file.None? ==> AfterLoad(mem, file) == mem
    ensures file.Some? ==>
      |file.value| < ROM_SIZE && AfterLoad(mem, file) == file.value + mem[|file.value|..]
  {
    if file.Some? {
      var m := AfterLoad(mem, file);
      var d := file.value;
      assert forall a :: 0 <= a < MEMORY_SIZE ==> m[a] == (d + mem[|d|..])[a];
    }
  }

  /** `load_rom` with the file's contents as a parameter (None: `fopen` failed). */
  method LoadRom(memory: array<bv8>, file: Option<seq<bv8>>) returns (ok: bool)
    requires memory.Length == MEMORY_SIZE
    modifies memory
    ensures ok == RomAccepted(file)
    ensures memory[..] == AfterLoad(old(memory[..]), file)
  {
    if file.None? {
      return false;
    }
    var data := file.value;
    var n := BytesRead(data);
    var i := 0;
    while i < n
      invariant 0 <= i <= n
      invariant forall a :: 0 <= a < i ==> memory[a] == data[a]
      invariant forall a :: i <= a < MEMORY_SIZE ==> memory[a] == old(memory[a])
    {
      memory[i] := data[i];
      i := i + 1;
    }
    if n != ROM_SIZE {
      ok := false;
    } else {
      ClearRam(memory);
      ok := true;
    }
    assert forall a :: 0 <= a < MEMORY_SIZE ==> memory[a] == AfterLoad(old(memory[..]), file)[a];
  }
}
