/**
The record of installed hooks: a bitmap with one bit per system call and a cache of resolved
addresses, as installProbe, removeProbe and the unhooking loop of module unload keep them.
The text patch itself and the kprobe symbol lookup are parameters.
 */
module HookTable {
  import opened CallRel32
  import opened Words

  /** Bit j of a byte */
  function Mask(j: nat): (m: bv8)
    requires j < 8
    ensures m == (1 as bv8) << j
  {
    match j case 0 => 1 case 1 => 2 case 2 => 4 case 3 => 8 case 4 => 16 case 5 => 32 case 6 => 64 case _ => 128
  }

  predicate Bit(b: bv8, j: nat)
    requires j < 8
  {
    b & Mask(j) != 0
  }

  lemma SetBit(b: bv8, j: nat, k: nat)
    requires j < 8 && k < 8
    ensures Bit(b | Mask(j), k) <==> k == j || Bit(b, k)
  {}

  lemma ClearBit(b: bv8, j: nat, k: nat)
    requires j < 8 && k < 8
    ensures Bit(b & !Mask(j), k) <==> k != j && Bit(b, k)
  {}

  lemma NoBits(j: nat)
    requires j < 8
    ensures !Bit(0, j)
  {}

  predicate HasBit(bitmap: seq<bv8>, id: nat) { id / 8 < |bitmap| && Bit(bitmap[id / 8], id % 8) }

  /** The system calls that are hooked, according to a bitmap */
  function Ids(bitmap: seq<bv8>): set<nat> {
    set id: nat | id < 8 * |bitmap| && HasBit(bitmap, id)
  }

  lemma IdsAreBits(bitmap: seq<bv8>, id: nat)
    ensures id in Ids(bitmap) <==> HasBit(bitmap, id)
  {}

  lemma SetIsInsert(bitmap: seq<bv8>, id: nat)
    requires id / 8 < |bitmap|
    ensures Ids(bitmap[id / 8 := bitmap[id / 8] | Mask(id % 8)]) == Ids(bitmap) + {id}
  {
    hide Bit, Mask, Ids;
    var b := bitmap[id / 8 := bitmap[id / 8] | Mask(id % 8)];
    forall k: nat ensures k in Ids(b) <==> k in Ids(bitmap) + {id} {
      IdsAreBits(b, k);
      IdsAreBits(bitmap, k);
      if k / 8 == id / 8 {
        SetBit(bitmap[id / 8], id % 8, k % 8);
      }
    }
  }

  lemma ClearIsRemove(bitmap: seq<bv8>, id: nat)
    requires id / 8 < |bitmap|
    ensures Ids(bitmap[id / 8 := bitmap[id / 8] & !Mask(id % 8)]) == Ids(bitmap) - {id}
  {
    hide Bit, Mask, Ids;
    var b := bitmap[id / 8 := bitmap[id / 8] & !Mask(id % 8)];
    forall k: nat ensures k in Ids(b) <==> k in Ids(bitmap) - {id} {
      IdsAreBits(b, k);
      IdsAreBits(bitmap, k);
      if k / 8 == id / 8 {
        ClearBit(bitmap[id / 8], id % 8, k % 8);
      }
    }
  }

  const EINVAL := 22
  const EEXIST := 17

  /** What register_kprobe finds for the symbol of a system call */
  datatype Probe = Failed(code: int) | Resolved(addr: Word)

  /** What is handed to the text patcher */
  datatype Poke = NoPoke | Poke(addr: Word, bytes: seq<Byte>)

  /** The bytes that removeProbe writes */
  const UNHOOKED: seq<Byte> := [0x0F, 0x00, 0x44, 0x00, 0x00]

  /** The hooks left when the unhooking loop has passed the calls below `n` and could not remove `stuck` */
  ghost function LeftAfter(hooked: set<nat>, stuck: set<nat>, n: nat): set<nat> {
    set id | id in hooked && (id >= n || id in stuck)
  }

  lemma LeftStep(hooked: set<nat>, stuck: set<nat>, n: nat)
    ensures LeftAfter(hooked, stuck, n + 1)
      == if n in hooked && n !in stuck then LeftAfter(hooked, stuck, n) - {n} else LeftAfter(hooked, stuck, n)
  {}

  lemma LeftSkip(hooked: set<nat>, stuck: set<nat>, n: nat, k: nat)
    requires n <= k && forall id :: n <= id < k ==> id !in hooked
    ensures LeftAfter(hooked, stuck, k) == LeftAfter(hooked, stuck, n)
  {}

  class Table {
    const supported: nat                      // SUPPORTED_SYSCALLS
    const trampoline: Word                    // the address of stub_trampoline
    const bitmap: array<bv8>                  // syscall_presence_bitmap
    const addresses: array<Word>              // syscall_addresses, 0 when not resolved yet

    ghost predicate Valid() reads bitmap {
      && {bitmap} !! {addresses as object} && supported <= 8 * bitmap.Length && addresses.Length == supported
      && forall id :: id in Ids(bitmap[..]) ==> id < supported
    }

    ghost function Hooked(): set<nat> reads bitmap { Ids(bitmap[..]) }

    constructor (supported: nat, size: nat, trampoline: Word)
      requires supported <= 8 * size
      ensures Valid() && Hooked() == {} && fresh(bitmap) && fresh(addresses)
      ensures this.supported == supported && this.trampoline == trampoline
      ensures forall i :: 0 <= i < supported ==> addresses[i] == 0
    {
      this.supported := supported;
      this.trampoline := trampoline;
      bitmap := new bv8[size](_ => 0);
      addresses := new Word[supported](_ => 0);
      new;
      forall id | 0 <= id < 8 * size ensures !HasBit(bitmap[..], id) {
        NoBits(id % 8);
      }
    }

    /** The address is known or can be looked up, so that the text is patched. */
    ghost predicate Reaches(id: int, probe: Probe) reads addresses {
      0 <= id < addresses.Length && (addresses[id] != 0 || probe.Resolved?)
    }

    /** The lookup that both operations begin with: kprobe is asked only for an unknown address. */
    method Locate(id: nat, probe: Probe) returns (ok: bool)
      requires id < addresses.Length
      modifies addresses
      ensures ok <==> old(addresses[id]) != 0 || probe.Resolved?
      ensures !ok || old(addresses[id]) != 0 ==> addresses[..] == old(addresses[..])
      ensures ok && old(addresses[id]) == 0 ==> addresses[..] == old(addresses[..])[id := probe.addr]
    {
      if addresses[id] != 0 {
        return true;
      }
      if probe.Resolved? {
        addresses[id] := probe.addr;
      }
      return probe.Resolved?;
    }

    method SetHook(id: nat)
      requires Valid() && id < supported
      modifies bitmap
      ensures Valid() && Hooked() == old(Hooked()) + {id}
    {
      hide Bit, Mask, Ids;
      SetIsInsert(bitmap[..], id);
      bitmap[id / 8] := bitmap[id / 8] | Mask(id % 8);
      assert bitmap[..] == old(bitmap[..])[id / 8 := bitmap[id / 8]];
    }

    method ClearHook(id: nat)
      requires Valid() && id < supported
      modifies bitmap
      ensures Valid() && Hooked() == old(Hooked()) - {id}
    {
      hide Bit, Mask, Ids;
      ClearIsRemove(bitmap[..], id);
      bitmap[id / 8] := bitmap[id / 8] & !Mask(id % 8);
      assert bitmap[..] == old(bitmap[..])[id / 8 := bitmap[id / 8]];
    }

    /** `patch` is the result of the text patch, if it comes to that. */
    method InstallProbe(id: int, probe: Probe, patch: int) returns (code: int, poke: Poke)
      requires Valid()
      modifies bitmap, addresses
      ensures Valid()
      ensures poke.Poke? <==> id !in old(Hooked()) && old(Reaches(id, probe))
      ensures poke.Poke? ==>
        && poke == Poke(addresses[id], Encode(addresses[id], trampoline))
        && (old(addresses[id]) != 0 ==> addresses[..] == old(addresses[..]))
        && (old(addresses[id]) == 0 ==> probe.Resolved? && addresses[..] == old(addresses[..])[id := probe.addr])
      ensures poke.NoPoke? ==> addresses[..] == old(addresses[..])
      ensures Hooked() == if poke.Poke? && patch >= 0 then old(Hooked()) + {id} else old(Hooked())
      ensures code == if !(0 <= id < supported) then -EINVAL
                      else if id in old(Hooked()) then -EEXIST
                      else if poke.NoPoke? then probe.code
                      else if patch < 0 then patch else 1
    {
      hide Bit, Mask, Ids, Encode;
      if id < 0 || id >= supported {
        return -EINVAL, NoPoke;
      }
      IdsAreBits(bitmap[..], id);
      if Bit(bitmap[id / 8], id % 8) {
        return -EEXIST, NoPoke;
      }
      var ok := Locate(id, probe);
      assert bitmap[..] == old(bitmap[..]);
      if !ok {
        return probe.code, NoPoke;
      }
      poke := Poke(addresses[id], Encode(addresses[id], trampoline));
      if patch < 0 {
        return patch, poke;
      }
      SetHook(id);
      return 1, poke;
    }

    method RemoveProbe(id: int, probe: Probe, patch: int) returns (code: int, poke: Poke)
      requires Valid()
      modifies bitmap, addresses
      ensures Valid()
      ensures poke.Poke? <==> id in old(Hooked()) && old(Reaches(id, probe))
      ensures poke.Poke? ==>
        && poke == Poke(addresses[id], UNHOOKED)
        && (old(addresses[id]) != 0 ==> addresses[..] == old(addresses[..]))
        && (old(addresses[id]) == 0 ==> probe.Resolved? && addresses[..] == old(addresses[..])[id := probe.addr])
      ensures poke.NoPoke? ==> addresses[..] == old(addresses[..])
      ensures Hooked() == if poke.Poke? && patch >= 0 then old(Hooked()) - {id} else old(Hooked())
      ensures code == if !(0 <= id < supported) then -EINVAL
                      else if id !in old(Hooked()) then -EEXIST
                      else if poke.NoPoke? then -1
                      else if patch < 0 then patch else 1
    {
      hide Bit, Mask, Ids;
      if id < 0 || id >= supported {
        return -EINVAL, NoPoke;
      }
      IdsAreBits(bitmap[..], id);
      if !Bit(bitmap[id / 8], id % 8) {
        return -EEXIST, NoPoke;
      }
      var ok := Locate(id, probe);
      assert bitmap[..] == old(bitmap[..]);
      if !ok {
        return -1, NoPoke;
      }
      poke := Poke(addresses[id], UNHOOKED);
      if patch < 0 {
        return patch, poke;
      }
      ClearHook(id);
      return 1, poke;
    }

    /** The hooks that the unhooking loop cannot remove */
    ghost function Stuck(probe: nat -> Probe, patch: nat -> int): set<nat>
      reads bitmap, addresses
    {
      set id | id in Hooked() && !(Reaches(id, probe(id)) && patch(id) >= 0)
    }

    /** Eight turns of the inner loop */
    method UnhookByte(i: nat, probe: nat -> Probe, patch: nat -> int, ghost hooked: set<nat>, ghost stuck: set<nat>)
      requires Valid() && i < bitmap.Length && Hooked() == LeftAfter(hooked, stuck, 8 * i)
      requires forall id :: id in hooked && id >= 8 * i ==>
        (id in stuck <==> !(Reaches(id, probe(id)) && patch(id) >= 0))
      modifies bitmap, addresses
      ensures Valid() && Hooked() == LeftAfter(hooked, stuck, 8 * i + 8)
      ensures forall id :: 8 * i + 8 <= id < addresses.Length ==> addresses[id] == old(addresses[id])
    {
      hide Bit, Mask, Ids;
      for j := 0 to 8
        invariant Valid() && Hooked() == LeftAfter(hooked, stuck, 8 * i + j)
        invariant forall id :: 8 * i + j <= id < addresses.Length ==> addresses[id] == old(addresses[id])
      {
        var id := 8 * i + j;
        LeftStep(hooked, stuck, id);
        IdsAreBits(bitmap[..], id);
        if Bit(bitmap[i], j) {
          var code, poke := RemoveProbe(id, probe(id), patch(id));
        }
      }
    }

    /** The unhooking loop of module unload: what is left are exactly the hooks that cannot be removed. */
    method UnhookAll(probe: nat -> Probe, patch: nat -> int)
      requires Valid()
      modifies bitmap, addresses
      ensures Valid() && Hooked() == old(Stuck(probe, patch))
    {
      hide Bit, Mask, Ids;
      ghost var hooked, stuck := Hooked(), Stuck(probe, patch);
      for i := 0 to bitmap.Length
        invariant Valid() && Hooked() == LeftAfter(hooked, stuck, 8 * i)
        invariant forall id :: 8 * i <= id < addresses.Length ==> addresses[id] == old(addresses[id])
      {
        if bitmap[i] != 0 {
          UnhookByte(i, probe, patch, hooked, stuck);
        } else {
          forall id | 8 * i <= id < 8 * i + 8 ensures id !in hooked {
            IdsAreBits(bitmap[..], id);
            NoBits(id % 8);
          }
          LeftSkip(hooked, stuck, 8 * i, 8 * i + 8);
        }
      }
    }
  }
}
