/** The generation allocator for hardware address-space IDs of mm/src/asid.rs. */
module Asid {
  import opened Machine

  const ID_LIMIT: nat := 0x1_0000

  /** ID 0 belongs to the kernel. */
  const KERNEL: nat := 0

  datatype Token = Token(id: nat, generation: nat)

  datatype AsidError = NoUserAsids | GenerationOverflow

  datatype Result<T> = Ok(value: T) | Err(error: AsidError)

  /** The IDs of the live tokens of one generation. */
  ghost function Ids(live: multiset<Token>, generation: nat): set<nat> {
    set t | t in live && t.generation == generation :: t.id
  }

  ghost function Elements(s: seq<nat>): set<nat> {
    set x | x in s
  }

  /** Every token was handed out once, up to this generation, with an ID of the hardware's. */
  ghost predicate HandedOnce(live: multiset<Token>, generation: nat, maximum: nat) {
    forall t :: t in live ==> t.generation <= generation && 1 <= t.id <= maximum && live[t] == 1
  }

  predicate Between(i: nat, n: nat) {
    1 <= i < n
  }

  /** The IDs from 1 to n - 1. */
  ghost function Upto(n: nat): set<nat> {
    set i: nat | i < n && Between(i, n)
  }

  /** IDs 1 to next - 1 are exactly the free ones and the live ones, and no ID is both or twice free. */
  ghost predicate Partition(free: seq<nat>, live: multiset<Token>, generation: nat, next: nat) {
    && (forall i, j :: 0 <= i < j < |free| ==> free[i] != free[j])
    && Elements(free) + Ids(live, generation) == Upto(next)
    && Elements(free) !! Ids(live, generation)
  }

  class AsidAllocator {
    const maximum: nat
    var next: nat
    var generation: nat
    var free: seq<nat>
    /** The tokens that were handed out and not released. */
    ghost var live: multiset<Token>

    ghost predicate Valid()
      reads this
    {
      && 0 < maximum < ID_LIMIT && 1 <= next <= maximum + 1 && 1 <= generation < U64
      && Partition(free, live, generation, next)
      && HandedOnce(live, generation, maximum)
    }

    constructor (maximum: nat)
      requires 0 < maximum < ID_LIMIT
      ensures Valid() && this.maximum == maximum && live == multiset{} && generation == 1
    {
      this.maximum, next, generation, free, live := maximum, 1, 1, [], multiset{};
    }

    static method Create(maximum: nat) returns (r: Result<AsidAllocator>)
      requires maximum < ID_LIMIT
      ensures r.Err? <==> maximum == 0
      ensures r.Err? ==> r.error == NoUserAsids
      ensures r.Ok? ==> fresh(r.value) && r.value.Valid() && r.value.maximum == maximum && r.value.live == multiset{}
    {
      if maximum == 0 {
        return Err(NoUserAsids);
      }
      var a := new AsidAllocator(maximum);
      return Ok(a);
    }

    predicate NextAllocationRolls()
      reads this
    {
      free == [] && next > maximum
    }

    /** A generation is used up exactly when every hardware ID is live in it. */
    lemma RollsWhenAllLive()
      requires Valid()
      ensures NextAllocationRolls() <==> Ids(live, generation) == Upto(maximum + 1)
    {
      assert Between(maximum, maximum + 1) && maximum in Upto(maximum + 1);
      assert maximum in Upto(next) <==> next == maximum + 1;
      assert free != [] ==> free[0] in Elements(free);
    }

    method Allocate() returns (r: Result<(Token, bool)>)
      requires Valid()
      modifies this
      ensures Valid()
      ensures r.Err? <==> old(NextAllocationRolls()) && old(generation) + 1 >= U64
      ensures r.Err? ==>
        r.error == GenerationOverflow && live == old(live) && generation == old(generation) && free == old(free)
      ensures r.Ok? ==>
        r.value.0 !in old(live) && live == old(live) + multiset{r.value.0} && r.value.0.generation == generation
      ensures r.Ok? ==> 1 <= r.value.0.id <= maximum && (r.value.1 <==> old(NextAllocationRolls()))
      ensures r.Ok? ==> generation == old(generation) + if r.value.1 then 1 else 0
    {
      if free != [] {
        var token := TakeFree();
        return Ok((token, false));
      }
      var rolled := false;
      if next > maximum {
        if generation + 1 >= U64 {
          return Err(GenerationOverflow);
        }
        Rolled(live, generation, maximum);
        generation := generation + 1;
        next := 1;
        rolled := true;
      }
      var token := TakeNext();
      return Ok((token, rolled));
    }

    /** The ID that became free last. */
    method TakeFree() returns (token: Token)
      requires Valid() && free != []
      modifies `free, `live
      ensures Valid() && token !in old(live) && live == old(live) + multiset{token}
      ensures token.generation == generation && 1 <= token.id <= maximum
    {
      var last := |free| - 1;
      token := Token(free[last], generation);
      FromFree(free, live, generation, next, maximum);
      free := free[..last];
      live := live + multiset{token};
    }

    /** The first ID this generation has not used. */
    method TakeNext() returns (token: Token)
      requires Valid() && free == [] && next <= maximum
      modifies `next, `live
      ensures Valid() && token !in old(live) && live == old(live) + multiset{token}
      ensures token.generation == generation && 1 <= token.id <= maximum
    {
      token := Token(next, generation);
      FromNext(live, generation, next, maximum);
      next := next + 1;
      live := live + multiset{token};
    }

    /** The caller gives back a token it holds; stale and kernel tokens are ignored by the allocator. */
    method Release(token: Token)
      requires Valid() && (token in live || token.generation != generation || token.id == KERNEL)
      modifies this
      ensures Valid() && live == old(live) - multiset{token} && generation == old(generation) && next == old(next)
      ensures free == if token in old(live) && token.generation == generation then old(free) + [token.id] else old(free)
    {
      if token.generation != generation || token.id == KERNEL {
        live := live - multiset{token};
        assert Ids(live, generation) == Ids(old(live), generation);
        return;
      }
      assert token.id in Ids(live, generation);
      assert token.id <= maximum && token.id !in free by {
        assert token.id in Elements(free) <==> token.id in free;
      }
      Left(live, token, generation);
      live := live - multiset{token};
      Pushed(free, token.id);
      free := free + [token.id];
    }
  }

  lemma Popped(s: seq<nat>)
    requires s != [] && forall i, j :: 0 <= i < j < |s| ==> s[i] != s[j]
    ensures Elements(s[..|s| - 1]) == Elements(s) - {s[|s| - 1]}
  {
    var n := |s| - 1;
    assert s == s[..n] + [s[n]];
    assert s[n] !in s[..n];
  }

  lemma Pushed(s: seq<nat>, x: nat)
    ensures Elements(s + [x]) == Elements(s) + {x}
  {
  }

  lemma Joined(live: multiset<Token>, id: nat, generation: nat, maximum: nat)
    requires HandedOnce(live, generation, maximum) && id !in Ids(live, generation) && 1 <= id <= maximum
    ensures Token(id, generation) !in live && HandedOnce(live + multiset{Token(id, generation)}, generation, maximum)
    ensures Ids(live + multiset{Token(id, generation)}, generation) == Ids(live, generation) + {id}
  {
    assert Token(id, generation) in live + multiset{Token(id, generation)};
    forall x | x in Ids(live, generation) ensures x in Ids(live + multiset{Token(id, generation)}, generation) {
      var t :| t in live && t.generation == generation && t.id == x;
      assert t in live + multiset{Token(id, generation)};
    }
  }

  /** Handing out the last free ID. */
  lemma FromFree(free: seq<nat>, live: multiset<Token>, generation: nat, next: nat, maximum: nat)
    requires free != [] && Partition(free, live, generation, next) && HandedOnce(live, generation, maximum)
    requires next <= maximum + 1
    ensures
      var id := free[|free| - 1];
      var now := live + multiset{Token(id, generation)};
      && 1 <= id <= maximum && Token(id, generation) !in live && HandedOnce(now, generation, maximum)
      && Partition(free[..|free| - 1], now, generation, next)
  {
    var id := free[|free| - 1];
    Popped(free);
    assert id in Elements(free) && id in Upto(next);
    Joined(live, id, generation, maximum);
  }

  /** Handing out an ID that this generation has not used. */
  lemma FromNext(live: multiset<Token>, generation: nat, next: nat, maximum: nat)
    requires Partition([], live, generation, next) && HandedOnce(live, generation, maximum) && 1 <= next <= maximum
    ensures
      var now := live + multiset{Token(next, generation)};
      && Token(next, generation) !in live && HandedOnce(now, generation, maximum)
      && Partition([], now, generation, next + 1)
  {
    assert next !in Upto(next);
    Joined(live, next, generation, maximum);
    assert Upto(next + 1) == Upto(next) + {next};
  }

  /** A new generation starts with no live ID. */
  lemma Rolled(live: multiset<Token>, generation: nat, maximum: nat)
    requires HandedOnce(live, generation, maximum)
    ensures HandedOnce(live, generation + 1, maximum) && Partition([], live, generation + 1, 1)
  {
    assert Ids(live, generation + 1) == {};
  }

  lemma Left(live: multiset<Token>, token: Token, generation: nat)
    requires live[token] == 1 && token.generation == generation
    ensures Ids(live - multiset{token}, generation) == Ids(live, generation) - {token.id}
  {
    forall x | x in Ids(live, generation) && x != token.id ensures x in Ids(live - multiset{token}, generation) {
      var t :| t in live && t.generation == generation && t.id == x;
      assert t in live - multiset{token};
    }
  }

  // ----------------------------------------------------------------- runs

  /** Ask for a token, or give one of the held tokens back. */
  datatype Request = Acquire | GiveBack(which: nat)

  predicate OneHolderPerId(held: seq<Token>) {
    forall i, j :: 0 <= i < j < |held| && held[i].generation == held[j].generation ==> held[i].id != held[j].id
  }

  lemma Unshared(held: seq<Token>)
    requires forall t :: t in held ==> multiset(held)[t] == 1
    ensures OneHolderPerId(held)
  {
    forall i, j | 0 <= i < j < |held|
      ensures held[i] != held[j]
    {
      assert held == held[..j] + [held[j]] + held[j + 1..];
      assert held[..j][i] in multiset(held[..j]);
      assert multiset(held) == multiset(held[..j]) + multiset{held[j]} + multiset(held[j + 1..]);
      assert multiset(held)[held[j]] >= multiset(held[..j])[held[j]] + 1;
    }
  }

  lemma WithoutOne(held: seq<Token>, which: nat)
    requires which < |held|
    ensures multiset(held[..which] + held[which + 1..]) == multiset(held) - multiset{held[which]}
  {
    assert held == held[..which] + [held[which]] + held[which + 1..];
  }

  /** In every run that releases only held tokens, no two holders of one generation share an ID. */
  method Serve(allocator: AsidAllocator, requests: seq<Request>) returns (held: seq<Token>)
    requires allocator.Valid() && allocator.live == multiset{}
    modifies allocator
    ensures allocator.Valid() && multiset(held) == allocator.live
    ensures OneHolderPerId(held) && forall i :: 0 <= i < |held| ==> held[i].id != KERNEL
  {
    held := [];
    for k := 0 to |requests|
      invariant allocator.Valid() && multiset(held) == allocator.live
    {
      match requests[k]
      case Acquire =>
        var r := allocator.Allocate();
        if r.Ok? {
          held := held + [r.value.0];
        }
      case GiveBack(which) =>
        if which < |held| {
          assert held[which] in multiset(held);
          allocator.Release(held[which]);
          WithoutOne(held, which);
          held := held[..which] + held[which + 1..];
        }
    }
    forall t | t in held
      ensures multiset(held)[t] == 1
    {
      assert t in allocator.live && allocator.live[t] == 1;
    }
    Unshared(held);
    forall i | 0 <= i < |held|
      ensures held[i].id != KERNEL
    {
      assert held[i] in allocator.live;
    }
  }
}
