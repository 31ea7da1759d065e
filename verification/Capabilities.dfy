/** The capability bitsets of src/capability/manifest.rs: an identifier is a bit of a word array. */
module Capabilities {
  import opened Bits

  /** What a manifest offers, as sets of identifiers. */
  datatype Manifest =
    Manifest(version: nat, tools: set<nat>, resources: set<nat>, prompts: set<nat>, extensions: set<nat>)

  function Intersect(a: Manifest, b: Manifest): Manifest {
    Manifest(Min(a.version, b.version), a.tools * b.tools, a.resources * b.resources, a.prompts * b.prompts,
             a.extensions * b.extensions)
  }

  /** `m` offers nothing that `a` does not. */
  predicate Within(m: Manifest, a: Manifest) {
    && m.version <= a.version && m.tools <= a.tools && m.resources <= a.resources && m.prompts <= a.prompts
    && m.extensions <= a.extensions
  }

  /** Negotiation is the greatest common offer: exactly what is within both is within it. */
  lemma IntersectIsGreatest(a: Manifest, b: Manifest, m: Manifest)
    ensures Within(m, Intersect(a, b)) <==> Within(m, a) && Within(m, b)
    ensures Within(Intersect(a, b), a) && Within(Intersect(a, b), b)
    ensures Intersect(a, b).version in {a.version, b.version}
  {
  }

  const MAX_TOOLS: nat := 8192

  /** The bit of identifier `i`: 64 to a word. */
  predicate HasId(words: seq<nat>, i: nat)
    requires i < 64 * |words|
  {
    Bit(words[i / 64], i % 64)
  }

  /** The identifiers below `n` whose bit is set in `words`. */
  function Members(words: seq<nat>, n: nat): (s: set<nat>)
    requires n <= 64 * |words|
    ensures forall i :: i in s <==> 0 <= i < n && HasId(words, i)
  {
    if n == 0 then {}
    else if HasId(words, n - 1) then Members(words, n - 1) + {n - 1}
    else Members(words, n - 1)
  }

  function IdList(words: seq<nat>, n: nat): (ids: seq<nat>)
    requires n <= 64 * |words|
  {
    if n == 0 then []
    else IdList(words, n - 1) + if HasId(words, n - 1) then [n - 1] else []
  }

  lemma {:induction false} IdListMeans(words: seq<nat>, n: nat)
    requires n <= 64 * |words|
    ensures Lists(IdList(words, n), Members(words, n))
  {
    hide HasId, Members, IdList, Lists;
    if n == 0 {
      NoIds(words);
    } else {
      IdListMeans(words, n - 1);
      NextId(words, n);
      Listed(IdList(words, n - 1), n - 1, Members(words, n - 1));
    }
  }

  /** The list is ascending and has exactly the members of the set, once each. */
  ghost predicate Lists(ids: seq<nat>, members: set<nat>) {
    && (forall i :: i in ids <==> i in members)
    && (forall j, k :: 0 <= j < k < |ids| ==> ids[j] < ids[k])
    && |ids| == |members|
  }

  lemma {:induction false} NoIds(words: seq<nat>)
    ensures Lists(IdList(words, 0), Members(words, 0))
  {
  }

  lemma NextId(words: seq<nat>, n: nat)
    requires 0 < n <= 64 * |words|
    ensures var has := HasId(words, n - 1);
      && IdList(words, n) == (if has then IdList(words, n - 1) + [n - 1] else IdList(words, n - 1))
      && Members(words, n) == (if has then Members(words, n - 1) + {n - 1} else Members(words, n - 1))
    ensures AllBelow(Members(words, n - 1), n - 1)
  {
    hide HasId;
  }

  predicate AllBelow(members: set<nat>, x: nat) {
    forall i :: i in members ==> i < x
  }

  /** A list of the members of a set below `x` stays one when `x` is put behind. */
  lemma Listed(ids: seq<nat>, x: nat, members: set<nat>)
    requires Lists(ids, members) && AllBelow(members, x)
    ensures Lists(ids + [x], members + {x})
  {
    assert |members + {x}| == |members| + 1;
    assert forall i :: i in ids + [x] ==> i in ids || i == x;
    assert (ids + [x])[|ids|] == x && forall j :: 0 <= j < |ids| ==> (ids + [x])[j] == ids[j];
    forall j | 0 <= j < |ids| ensures ids[j] < x { assert ids[j] in members; }
  }

  class BitSet {
    const words: array<nat>

    ghost function View(): set<nat>
      reads words
    {
      Members(words[..], 64 * words.Length)
    }

    constructor (n: nat)
      ensures fresh(words) && words.Length == n && View() == {}
    {
      words := new nat[n](_ => 0);
      new;
      forall i | 0 <= i < 64 * n ensures !HasId(words[..], i) { BitOfZero(i % 64); }
      assert View() == {};
    }

    /** Identifiers beyond the capacity are ignored. */
    method Set(id: nat)
      modifies words
      ensures View() == if id < 64 * words.Length then old(View()) + {id} else old(View())
    {
      if id < 64 * words.Length {
        ghost var was := words[..];
        words[id / 64] := Or(words[id / 64], Pow2(id % 64));
        forall i | 0 <= i < 64 * words.Length
          ensures HasId(words[..], i) <==> HasId(was, i) || i == id
        {
          BitOfOr(was[id / 64], Pow2(id % 64), i % 64);
          BitOfPow2(id % 64, i % 64);
        }
        assert View() == old(View()) + {id};
      }
    }

    method Clear(id: nat)
      modifies words
      ensures View() == old(View()) - {id}
    {
      if id < 64 * words.Length {
        ghost var was := words[..];
        words[id / 64] := AndNot(words[id / 64], Pow2(id % 64));
        forall i | 0 <= i < 64 * words.Length
          ensures HasId(words[..], i) <==> HasId(was, i) && i != id
        {
          BitOfAndNot(was[id / 64], Pow2(id % 64), i % 64);
          BitOfPow2(id % 64, i % 64);
        }
      }
      assert View() == old(View()) - {id};
    }

    method Has(id: nat) returns (b: bool)
      ensures b <==> id in View()
    {
      if id >= 64 * words.Length { return false; }
      AndPow2(words[id / 64], id % 64);
      return And(words[id / 64], Pow2(id % 64)) != 0;
    }

    /** The word-wise intersection of two sets of the same capacity, as a new set. */
    method IntersectWith(other: BitSet) returns (result: BitSet)
      requires other.words.Length == words.Length
      ensures fresh(result) && fresh(result.words) && result.words.Length == words.Length
      ensures result.View() == View() * other.View()
    {
      result := new BitSet(words.Length);
      for w := 0 to words.Length
        invariant result.words.Length == words.Length && fresh(result.words)
        invariant forall k :: 0 <= k < w ==> result.words[k] == And(words[k], other.words[k])
      {
        result.words[w] := And(words[w], other.words[w]);
      }
      forall i | 0 <= i < 64 * words.Length
        ensures HasId(result.words[..], i) <==> HasId(words[..], i) && HasId(other.words[..], i)
      {
        BitOfAnd(words[i / 64], other.words[i / 64], i % 64);
      }
      assert result.View() == View() * other.View();
    }

    /** The identifiers in ascending order, each once; their number is the population count. */
    method Ids() returns (ids: seq<nat>)
      ensures forall i :: i in ids <==> i in View()
      ensures forall j, k :: 0 <= j < k < |ids| ==> ids[j] < ids[k]
      ensures |ids| == |View()|
    {
      ids := [];
      for n := 0 to 64 * words.Length
        invariant ids == IdList(words[..], n)
      {
        AndPow2(words[n / 64], n % 64);
        if And(words[n / 64], Pow2(n % 64)) != 0 { ids := ids + [n]; }
      }
      IdListMeans(words[..], 64 * words.Length);
    }
  }

  class CapabilityManifest {
    const version: nat
    const tools: BitSet
    const resources: BitSet
    const prompts: BitSet
    const extensions: BitSet

    ghost predicate Valid()
      reads this, tools.words, resources.words, prompts.words, extensions.words
    {
      && tools.words.Length == 128 && resources.words.Length == 16 && prompts.words.Length == 8
      && extensions.words.Length == 1
    }

    ghost function View(): Manifest
      reads this, tools.words, resources.words, prompts.words, extensions.words
    {
      Manifest(version, tools.View(), resources.View(), prompts.View(), extensions.View())
    }

    constructor (version: nat)
      ensures Valid() && View() == Manifest(version, {}, {}, {}, {})
    {
      this.version := version;
      tools := new BitSet(128);
      resources := new BitSet(16);
      prompts := new BitSet(8);
      extensions := new BitSet(1);
    }

    constructor Of(version: nat, tools: BitSet, resources: BitSet, prompts: BitSet, extensions: BitSet)
      requires tools.words.Length == 128 && resources.words.Length == 16 && prompts.words.Length == 8
      requires extensions.words.Length == 1
      ensures Valid() && View() == Manifest(version, tools.View(), resources.View(), prompts.View(), extensions.View())
    {
      this.version, this.tools, this.resources, this.prompts, this.extensions
        := version, tools, resources, prompts, extensions;
    }

    /** Deny by default: a capability survives only if both sides offer it. */
    method Negotiate(server: CapabilityManifest) returns (result: CapabilityManifest)
      requires Valid() && server.Valid()
      ensures fresh(result) && result.Valid() && result.View() == Intersect(View(), server.View())
    {
      var t := tools.IntersectWith(server.tools);
      var r := resources.IntersectWith(server.resources);
      var p := prompts.IntersectWith(server.prompts);
      var e := extensions.IntersectWith(server.extensions);
      result := new CapabilityManifest.Of(Min(version, server.version), t, r, p, e);
    }
  }
}
