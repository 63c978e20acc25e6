/** The interception manager: patches the first bytes of a target function
    with a 5-byte near relative jump (opcode 0xE9 and a little-endian 32-bit
    displacement) and keeps, per target, the 10 bytes that were there before.
    Memory is the 32-bit address space of the process, held as a sparse map
    in which absent addresses read as zero. The operating system's protection
    call (`VirtualProtect`) and the loader (`GetModuleHandleA`,
    `LoadLibraryA`, `GetProcAddress`) are oracles: their outcomes are
    parameters of the operations that use them. */
module FunctionHook {
  import opened Basics

  type Addr = u32
  type Byte = u8
  type Memory = map<Addr, Byte>

  const NULL: Addr := 0
  /** Bytes copied aside before patching. */
  const SNAPSHOT_SIZE: nat := 10
  /** Bytes a near relative jump occupies (`bytesOverwritten`). */
  const JMP_SIZE: nat := 5
  const JMP_OPCODE: Byte := 0xE9

  /** `OriginalFunction`: the saved state of one hooked target. */
  datatype OriginalFunction = OriginalFunction(address: Addr, originalBytes: seq<Byte>, bytesOverwritten: nat)

  /** The address `k` bytes after `a`, wrapping around the 32-bit space. */
  function At(a: Addr, k: nat): Addr {
    (a + k) % TWO_32
  }

  function Read(m: Memory, a: Addr): Byte {
    if a in m then m[a] else 0
  }

  /** The `n` bytes starting at `a`. */
  function Window(m: Memory, a: Addr, n: nat): (w: seq<Byte>)
    ensures |w| == n && forall k :: 0 <= k < n ==> w[k] == Read(m, At(a, k))
  {
    seq(n, k requires 0 <= k < n => Read(m, At(a, k)))
  }

  // ---- the jump instruction ----

  /** `(DWORD)jumpTo - (DWORD)target - 5`, computed in 32-bit unsigned arithmetic. */
  function Displacement(target: Addr, jumpTo: Addr): u32 {
    ToU32(jumpTo - target - JMP_SIZE)
  }

  /** A near relative jump transfers control to the address of the next
      instruction plus the displacement, modulo 2^32: the patched jump lands
      exactly on the replacement, whatever the two addresses are. */
  lemma JumpLandsOnReplacement(target: Addr, jumpTo: Addr)
    ensures At(At(target, JMP_SIZE), Displacement(target, jumpTo)) == jumpTo
  {
    var d := Displacement(target, jumpTo);
    assert (d - (jumpTo - target - 5)) % TWO_32 == 0;
  }

  /** The little-endian encoding of a 32-bit value. */
  function LittleEndian32(v: u32): (b: seq<Byte>)
    ensures |b| == 4
  {
    [v % 0x100, (v / 0x100) % 0x100, (v / 0x1_0000) % 0x100, (v / 0x100_0000) % 0x100]
  }

  function FromLittleEndian32(b: seq<Byte>): u32
    requires |b| == 4
  {
    var b0: int, b1: int, b2: int, b3: int := b[0], b[1], b[2], b[3];
    b0 + 0x100 * b1 + 0x1_0000 * b2 + 0x100_0000 * b3
  }

  lemma LittleEndianRoundTrip(v: u32)
    ensures FromLittleEndian32(LittleEndian32(v)) == v
  {
    var b := LittleEndian32(v);
    var q1 := v / 0x100;
    var q2 := q1 / 0x100;
    var q3 := q2 / 0x100;
    assert v == b[0] + 0x100 * q1;
    assert q1 == b[1] + 0x100 * q2;
    assert q2 == b[2] + 0x100 * q3;
    assert q2 == v / 0x1_0000;
    assert q3 == v / 0x100_0000;
    assert q3 < 0x100;
  }

  /** The five instruction bytes written at `target`. */
  function JumpBytes(target: Addr, jumpTo: Addr): (b: seq<Byte>)
    ensures |b| == JMP_SIZE && b[0] == JMP_OPCODE
    ensures b[1..] == LittleEndian32(Displacement(target, jumpTo))
  {
    [JMP_OPCODE] + LittleEndian32(Displacement(target, jumpTo))
  }

  /** Memory `m` with `bytes` stored from `a` on, one byte after another. */
  function Store(m: Memory, a: Addr, bytes: seq<Byte>): Memory
    decreases |bytes|
  {
    if bytes == [] then m else Store(m[a := bytes[0]], At(a, 1), bytes[1..])
  }

  /** No two of the first `n` offsets from one address coincide (n <= 2^32). */
  lemma AtInjective(a: Addr, i: nat, j: nat)
    requires i < TWO_32 && j < TWO_32 && At(a, i) == At(a, j)
    ensures i == j
  {
  }

  lemma AtAt(a: Addr, i: nat, j: nat)
    ensures At(At(a, i), j) == At(a, i + j)
  {
  }

  /** What `Store` does, byte by byte: the stored bytes where they were put,
      every other address untouched. */
  lemma {:induction false} StoreReads(m: Memory, a: Addr, bytes: seq<Byte>, x: Addr)
    requires |bytes| <= SNAPSHOT_SIZE
    ensures (exists k :: 0 <= k < |bytes| && At(a, k) == x) ==>
              forall k :: 0 <= k < |bytes| && At(a, k) == x ==> Read(Store(m, a, bytes), x) == bytes[k]
    ensures (forall k :: 0 <= k < |bytes| ==> At(a, k) != x) ==> Read(Store(m, a, bytes), x) == Read(m, x)
    decreases |bytes|
  {
    if bytes != [] {
      var m' := m[a := bytes[0]];
      StoreReads(m', At(a, 1), bytes[1..], x);
      forall k | 1 <= k < |bytes| ensures At(At(a, 1), k - 1) == At(a, k) {
        AtAt(a, 1, k - 1);
      }
      forall k | 0 <= k < |bytes| && At(a, k) == x ensures Read(Store(m, a, bytes), x) == bytes[k] {
        if k == 0 {
          forall j | 1 <= j < |bytes| ensures At(a, j) != x {
            if At(a, j) == x { AtInjective(a, 0, j); }
          }
          assert forall j :: 0 <= j < |bytes[1..]| ==> At(At(a, 1), j) != x by {
            forall j | 0 <= j < |bytes[1..]| ensures At(At(a, 1), j) != x {
              AtAt(a, 1, j);
            }
          }
        } else {
          assert At(At(a, 1), k - 1) == x;
          assert bytes[1..][k - 1] == bytes[k];
        }
      }
      if forall k :: 0 <= k < |bytes| ==> At(a, k) != x {
        assert At(a, 0) != x;
        forall j | 0 <= j < |bytes[1..]| ensures At(At(a, 1), j) != x {
          AtAt(a, 1, j);
          assert At(a, j + 1) != x;
        }
      }
    }
  }

  /** The patched memory: the jump at `target`, nothing else changed. */
  function WriteJump(m: Memory, target: Addr, jumpTo: Addr): Memory {
    Store(m, target, JumpBytes(target, jumpTo))
  }

  /** The bytes the source promises after an install: the opcode, the
      displacement in little-endian order, and everything else as it was. */
  lemma WriteJumpEffect(m: Memory, target: Addr, jumpTo: Addr)
    ensures Read(WriteJump(m, target, jumpTo), target) == JMP_OPCODE
    ensures Window(WriteJump(m, target, jumpTo), At(target, 1), 4) == LittleEndian32(Displacement(target, jumpTo))
    ensures forall x :: (forall k :: 0 <= k < JMP_SIZE ==> At(target, k) != x) ==>
              Read(WriteJump(m, target, jumpTo), x) == Read(m, x)
  {
    var b := JumpBytes(target, jumpTo);
    var m' := WriteJump(m, target, jumpTo);
    StoreReads(m, target, b, target);
    assert At(target, 0) == target;
    forall k | 0 <= k < 4 ensures Read(m', At(At(target, 1), k)) == b[k + 1] {
      AtAt(target, 1, k);
      StoreReads(m, target, b, At(target, k + 1));
    }
    forall x | (forall k :: 0 <= k < JMP_SIZE ==> At(target, k) != x) ensures Read(m', x) == Read(m, x) {
      StoreReads(m, target, b, x);
    }
  }

  /** Storing back a snapshot taken at the same place makes every address read
      as it did when the snapshot was taken, provided the addresses written
      since are among those the snapshot restores. */
  lemma RestoreUndoesStore(m: Memory, a: Addr, prefixLen: nat, patch: seq<Byte>)
    requires |patch| <= prefixLen <= SNAPSHOT_SIZE
    ensures forall x :: Read(Store(Store(m, a, patch), a, Window(m, a, SNAPSHOT_SIZE)[..prefixLen]), x) == Read(m, x)
  {
    var saved := Window(m, a, SNAPSHOT_SIZE)[..prefixLen];
    var m1 := Store(m, a, patch);
    var m2 := Store(m1, a, saved);
    forall x ensures Read(m2, x) == Read(m, x) {
      StoreReads(m1, a, saved, x);
      StoreReads(m, a, patch, x);
    }
  }

  /** Install followed by uninstall gives back the memory as it was. */
  lemma UnhookRestoresMemory(m: Memory, target: Addr, jumpTo: Addr)
    ensures forall x :: Read(Store(WriteJump(m, target, jumpTo), target, Window(m, target, SNAPSHOT_SIZE)[..JMP_SIZE]), x) == Read(m, x)
  {
    RestoreUndoesStore(m, target, JMP_SIZE, JumpBytes(target, jumpTo));
  }

  // ---- the shutdown order ----

  predicate IsMin(s: set<Addr>, m: Addr) {
    m in s && forall y :: y in s ==> m <= y
  }

  lemma {:induction false} MinExists(s: set<Addr>)
    requires s != {}
    ensures exists m :: IsMin(s, m)
    decreases |s|
  {
    var x :| x in s;
    var rest := s - {x};
    if rest == {} {
      assert s == {x};
      assert IsMin(s, x);
    } else {
      MinExists(rest);
      var m :| IsMin(rest, m);
      assert forall y :: y in s ==> y == x || y in rest;
      if x < m {
        assert IsMin(s, x);
      } else {
        assert IsMin(s, m);
      }
    }
  }

  /** The smallest key: `std::map` visits its keys in increasing order. */
  function Min(s: set<Addr>): (m: Addr)
    requires s != {}
    ensures m in s && forall y :: y in s ==> m <= y
  {
    MinExists(s);
    var m :| IsMin(s, m);
    m
  }

  /** The memory after `Shutdown` has visited the keys in `pending`, in
      increasing order, restoring the 5 saved bytes of each target whose
      protection change succeeds. */
  ghost function ShutdownMemory(m: Memory, saved: map<Addr, OriginalFunction>, pending: set<Addr>, writable: Addr -> bool): Memory
    requires pending <= saved.Keys
    decreases pending
  {
    if pending == {} then m
    else
      var t := Min(pending);
      var m' := if writable(t) then Store(m, t, saved[t].originalBytes[..Bound(saved[t])]) else m;
      ShutdownMemory(m', saved, pending - {t}, writable)
  }

  function Bound(r: OriginalFunction): nat {
    if r.bytesOverwritten <= |r.originalBytes| then r.bytesOverwritten else |r.originalBytes|
  }

  /** Addresses outside every restored target's 5-byte window read after
      `Shutdown` as before it. */
  lemma {:induction false} ShutdownMemoryOutside(m: Memory, saved: map<Addr, OriginalFunction>, pending: set<Addr>, writable: Addr -> bool, x: Addr)
    requires pending <= saved.Keys
    requires forall t :: t in saved ==> Bound(saved[t]) <= JMP_SIZE
    requires forall t, k :: t in pending && 0 <= k < JMP_SIZE ==> At(t, k) != x
    ensures Read(ShutdownMemory(m, saved, pending, writable), x) == Read(m, x)
    decreases pending
  {
    if pending != {} {
      var t := Min(pending);
      var m' := if writable(t) then Store(m, t, saved[t].originalBytes[..Bound(saved[t])]) else m;
      ShutdownMemoryOutside(m', saved, pending - {t}, writable, x);
      if writable(t) {
        StoreReads(m, t, saved[t].originalBytes[..Bound(saved[t])], x);
      }
    }
  }

  /** A restored target whose window no other pending target's window
      overlaps reads back its saved bytes after `Shutdown`. */
  lemma {:induction false} ShutdownMemoryRestores(m: Memory, saved: map<Addr, OriginalFunction>, pending: set<Addr>, writable: Addr -> bool, t: Addr, k: nat)
    requires pending <= saved.Keys
    requires forall u :: u in saved ==> |saved[u].originalBytes| == SNAPSHOT_SIZE && saved[u].bytesOverwritten == JMP_SIZE
    requires t in pending && writable(t) && k < JMP_SIZE
    requires forall u, j :: u in pending && u != t && 0 <= j < JMP_SIZE ==> At(u, j) != At(t, k)
    ensures Read(ShutdownMemory(m, saved, pending, writable), At(t, k)) == saved[t].originalBytes[k]
    decreases pending
  {
    var u := Min(pending);
    var m' := if writable(u) then Store(m, u, saved[u].originalBytes[..Bound(saved[u])]) else m;
    if u == t {
      ShutdownMemoryOutside(m', saved, pending - {t}, writable, At(t, k));
      StoreReads(m, t, saved[t].originalBytes[..JMP_SIZE], At(t, k));
    } else {
      ShutdownMemoryRestores(m', saved, pending - {u}, writable, t, k);
    }
  }

  // ---- the hook table ----

  /** The process memory the hooks patch. */
  class ProcessMemory {
    var bytes: Memory

    constructor(initial: Memory)
      ensures bytes == initial
    {
      bytes := initial;
    }

    /** `memcpy` into memory, or a run of byte stores: `data` from `a` on. */
    method Copy(a: Addr, data: seq<Byte>)
      modifies this
      ensures bytes == Store(old(bytes), a, data)
    {
      var i := 0;
      while i < |data|
        invariant 0 <= i <= |data|
        invariant Store(bytes, At(a, i), data[i..]) == Store(old(bytes), a, data)
      {
        assert data[i..][1..] == data[i + 1..];
        AtAt(a, i, 1);
        bytes := bytes[At(a, i) := data[i]];
        i := i + 1;
      }
    }
  }

  /** `FunctionHook`: the two static tables `s_hookMap` (target to
      replacement) and `s_origFuncMap` (target to saved record). */
  class HookManager {
    var hookMap: map<Addr, Addr>
    var origFuncMap: map<Addr, OriginalFunction>
    const memory: ProcessMemory

    /** The tables have the same keys; no key is null; every record belongs to
        its key and holds a 10-byte snapshot of which 5 bytes were overwritten. */
    ghost predicate Valid()
      reads this
    {
      && hookMap.Keys == origFuncMap.Keys
      && NULL !in origFuncMap
      && forall t :: t in origFuncMap ==>
           && origFuncMap[t].address == t
           && |origFuncMap[t].originalBytes| == SNAPSHOT_SIZE
           && origFuncMap[t].bytesOverwritten == JMP_SIZE
           && hookMap[t] != NULL
    }

    constructor(memory: ProcessMemory)
      ensures Valid() && this.memory == memory
      ensures hookMap == map[] && origFuncMap == map[]
    {
      this.memory := memory;
      hookMap := map[];
      origFuncMap := map[];
    }

    /** `Initialize`: there is nothing to set up, and it always succeeds. */
    method Initialize() returns (ok: bool)
      ensures ok
    {
      ok := true;
    }

    /** `WriteJumpInstruction` with `writable` the outcome of making the 10
        bytes at `target` writable. */
    method WriteJumpInstruction(target: Addr, jumpTo: Addr, writable: bool) returns (ok: bool, saved: OriginalFunction)
      modifies memory
      ensures ok == writable
      ensures ok ==> saved == OriginalFunction(target, Window(old(memory.bytes), target, SNAPSHOT_SIZE), JMP_SIZE)
      ensures memory.bytes == if ok then WriteJump(old(memory.bytes), target, jumpTo) else old(memory.bytes)
    {
      saved := OriginalFunction(target, [], 0);
      if !writable {
        return false, saved;
      }
      var snapshot := Window(memory.bytes, target, SNAPSHOT_SIZE);
      saved := OriginalFunction(target, snapshot, JMP_SIZE);
      memory.Copy(target, JumpBytes(target, jumpTo));
      ok := true;
    }

    /** `RestoreOriginalBytes` with `writable` the outcome of making the
        overwritten bytes writable. */
    method RestoreOriginalBytes(target: Addr, saved: OriginalFunction, writable: bool) returns (ok: bool)
      modifies memory
      ensures ok == writable
      ensures memory.bytes == if ok then Store(old(memory.bytes), target, saved.originalBytes[..Bound(saved)]) else old(memory.bytes)
    {
      if !writable {
        return false;
      }
      memory.Copy(target, saved.originalBytes[..Bound(saved)]);
      ok := true;
    }

    /** `HookFunction(targetFunc, hookFunc, name)`. */
    method HookFunction(target: Addr, replacement: Addr, writable: bool) returns (ok: bool)
      requires Valid()
      modifies this, memory
      ensures Valid()
      ensures ok <==> target != NULL && replacement != NULL && target !in old(origFuncMap) && writable
      ensures ok ==> origFuncMap == old(origFuncMap)[target := OriginalFunction(target, Window(old(memory.bytes), target, SNAPSHOT_SIZE), JMP_SIZE)]
      ensures ok ==> hookMap == old(hookMap)[target := replacement]
      ensures ok ==> memory.bytes == WriteJump(old(memory.bytes), target, replacement)
      ensures !ok ==> origFuncMap == old(origFuncMap) && hookMap == old(hookMap) && memory.bytes == old(memory.bytes)
    {
      if target == NULL || replacement == NULL {
        return false;
      }
      if target in origFuncMap {
        return false;
      }
      var saved;
      ok, saved := WriteJumpInstruction(target, replacement, writable);
      if !ok {
        return false;
      }
      origFuncMap := origFuncMap[target := saved];
      hookMap := hookMap[target := replacement];
    }

    /** `HookFunction(dllName, exportName, hookFunc)`: `moduleLoaded` and
        `loadSucceeds` are the outcomes of `GetModuleHandleA` and
        `LoadLibraryA`, `exported` the address `GetProcAddress` returns (NULL when
        the export is missing). */
    method HookExport(moduleLoaded: bool, loadSucceeds: bool, exported: Addr, replacement: Addr, writable: bool) returns (ok: bool)
      requires Valid()
      modifies this, memory
      ensures Valid()
      ensures ok <==> (moduleLoaded || loadSucceeds) && exported != NULL && replacement != NULL && exported !in old(origFuncMap) && writable
      ensures ok ==> origFuncMap == old(origFuncMap)[exported := OriginalFunction(exported, Window(old(memory.bytes), exported, SNAPSHOT_SIZE), JMP_SIZE)]
      ensures ok ==> hookMap == old(hookMap)[exported := replacement]
      ensures ok ==> memory.bytes == WriteJump(old(memory.bytes), exported, replacement)
      ensures !ok ==> origFuncMap == old(origFuncMap) && hookMap == old(hookMap) && memory.bytes == old(memory.bytes)
    {
      if !moduleLoaded && !loadSucceeds {
        return false;
      }
      if exported == NULL {
        return false;
      }
      ok := HookFunction(exported, replacement, writable);
    }

    /** `UnhookFunction(targetFunc)`: on success the 5 overwritten bytes are
        back and the target leaves both tables; when the bytes cannot be
        made writable the record stays. */
    method UnhookFunction(target: Addr, writable: bool) returns (ok: bool)
      requires Valid()
      modifies this, memory
      ensures Valid()
      ensures ok <==> target in old(origFuncMap) && writable
      ensures ok ==> origFuncMap == old(origFuncMap) - {target} && hookMap == old(hookMap) - {target}
      ensures ok ==> memory.bytes == Store(old(memory.bytes), target, old(origFuncMap)[target].originalBytes[..JMP_SIZE])
      ensures !ok ==> origFuncMap == old(origFuncMap) && hookMap == old(hookMap) && memory.bytes == old(memory.bytes)
    {
      if target !in origFuncMap {
        return false;
      }
      var saved := origFuncMap[target];
      ok := RestoreOriginalBytes(target, saved, writable);
      if !ok {
        return false;
      }
      origFuncMap := origFuncMap - {target};
      hookMap := hookMap - {target};
    }

    /** `Shutdown`: every hooked target is visited once, in increasing
        address order; a target whose bytes cannot be made writable keeps its
        record and the walk goes on. */
    method Shutdown(writable: Addr -> bool)
      requires Valid()
      modifies this, memory
      ensures Valid()
      ensures origFuncMap == Survivors(old(origFuncMap), {}, writable)
      ensures hookMap == Survivors(old(hookMap), {}, writable)
      ensures memory.bytes == ShutdownMemory(old(memory.bytes), old(origFuncMap), old(origFuncMap.Keys), writable)
    {
      ghost var saved := origFuncMap;
      ghost var targets := hookMap;
      var pending := origFuncMap.Keys;
      SurvivorsAll(saved, writable);
      SurvivorsAll(targets, writable);
      while pending != {}
        invariant Valid()
        invariant pending <= saved.Keys
        invariant origFuncMap == Survivors(saved, pending, writable)
        invariant hookMap == Survivors(targets, pending, writable)
        invariant ShutdownMemory(memory.bytes, saved, pending, writable) == ShutdownMemory(old(memory.bytes), saved, saved.Keys, writable)
        decreases pending
      {
        var t := Min(pending);
        ghost var before := memory.bytes;
        var rest := pending - {t};
        var ok := UnhookFunction(t, writable(t));
        assert Survivors(saved, rest, writable) == if writable(t) then Survivors(saved, pending, writable) - {t} else Survivors(saved, pending, writable) by {
          SurvivorsStep(saved, pending, t, writable);
        }
        assert Survivors(targets, rest, writable) == if writable(t) then Survivors(targets, pending, writable) - {t} else Survivors(targets, pending, writable) by {
          SurvivorsStep(targets, pending, t, writable);
        }
        assert saved[t].originalBytes[..Bound(saved[t])] == saved[t].originalBytes[..JMP_SIZE];
        pending := rest;
      }
    }
  }

  /** The entries of `table` still present once the targets outside
      `pending` have been visited: the pending ones and those whose
      protection change fails. */
  ghost function Survivors<V>(table: map<Addr, V>, pending: set<Addr>, writable: Addr -> bool): (r: map<Addr, V>)
    ensures r.Keys <= table.Keys
    ensures forall t :: t in r ==> r[t] == table[t]
  {
    map t | t in table && (t in pending || !writable(t)) :: table[t]
  }

  lemma SurvivorsAll<V>(table: map<Addr, V>, writable: Addr -> bool)
    ensures Survivors(table, table.Keys, writable) == table
  {
  }

  lemma SurvivorsStep<V>(table: map<Addr, V>, pending: set<Addr>, t: Addr, writable: Addr -> bool)
    requires t in pending && t in table
    ensures Survivors(table, pending - {t}, writable) ==
              if writable(t) then Survivors(table, pending, writable) - {t} else Survivors(table, pending, writable)
  {
  }

  /** Hooking and then unhooking one target with both protection changes
      succeeding leaves the tables as they were and every byte of memory
      reading as before. */
  method HookThenUnhook(h: HookManager, target: Addr, replacement: Addr)
    requires h.Valid() && target != NULL && replacement != NULL && target !in h.origFuncMap
    modifies h, h.memory
    ensures h.Valid()
    ensures h.origFuncMap == old(h.origFuncMap) && h.hookMap == old(h.hookMap)
    ensures forall x :: Read(h.memory.bytes, x) == Read(old(h.memory.bytes), x)
  {
    ghost var m0 := h.memory.bytes;
    var hooked := h.HookFunction(target, replacement, true);
    var unhooked := h.UnhookFunction(target, true);
    UnhookRestoresMemory(m0, target, replacement);
  }

  /** A second install on a hooked target fails and changes nothing. */
  method HookTwice(h: HookManager, target: Addr, replacement: Addr, other: Addr)
    requires h.Valid() && target != NULL && replacement != NULL && target !in h.origFuncMap
    modifies h, h.memory
    ensures h.Valid()
    ensures h.origFuncMap.Keys == old(h.origFuncMap.Keys) + {target}
    ensures h.memory.bytes == WriteJump(old(h.memory.bytes), target, replacement)
  {
    var first := h.HookFunction(target, replacement, true);
    var second := h.HookFunction(target, other, true);
    assert !second;
  }
}
