/** The droplet directory client of config/digital_ocean.go: the live droplet
    record that the rest of the core reads, and the tag filter that scopes the
    live droplet list to one deployment. Listing the droplets page by page is
    a call to the provider's API and is not part of this model: the list it
    produces is an input wherever it is used. */
module DigitalOcean {
  import opened Common

  /** The fields of a live provider droplet (godo.Droplet) that the core reads:
      its numeric id, its name and its tags. Its public address is not a field
      here; it is resolved by an opaque lookup passed to whoever needs it. */
  datatype Instance = Instance(id: int, name: string, tags: seq<string>)

  /** Go's zero value of godo.Droplet: what a declared droplet holds until a
      live droplet is bound to it. */
  const ZeroInstance := Instance(0, "", [])

  /** Reference definition of the tag filter: the droplets of `drops` that carry
      `tag`, in their original order, built from the front as the loop does. */
  function Tagged(drops: seq<Instance>, tag: string): seq<Instance>
  {
    if drops == [] then []
    else
      var last := drops[|drops| - 1];
      Tagged(drops[..|drops| - 1], tag) + (if tag in last.tags then [last] else [])
  }

  /** `sub` can be obtained from `s` by deleting elements, keeping the order of
      the rest. */
  predicate IsSubsequence<T(==)>(sub: seq<T>, s: seq<T>)
    decreases |s|
  {
    || sub == []
    || (&& s != []
        && (|| (sub[|sub| - 1] == s[|s| - 1] && IsSubsequence(sub[..|sub| - 1], s[..|s| - 1]))
            || IsSubsequence(sub, s[..|s| - 1])))
  }

  /** hasTag: a linear scan that stops at the first occurrence of `tag`. */
  method HasTag(tags: seq<string>, tag: string) returns (found: bool)
    ensures found <==> tag in tags
  {
    for i := 0 to |tags|
      invariant forall k :: 0 <= k < i ==> tags[k] != tag
    {
      if tags[i] == tag {
        return true;
      }
    }
    return false;
  }

  /** FilterDrops: appends every droplet carrying `tag` to the output, in input
      order. Its error result is always nil. */
  method FilterDrops(drops: seq<Instance>, tag: string) returns (out: seq<Instance>, err: Option<string>)
    ensures out == Tagged(drops, tag)
    ensures err == None
  {
    out := [];
    for i := 0 to |drops|
      invariant out == Tagged(drops[..i], tag)
    {
      var has := HasTag(drops[i].tags, tag);
      assert drops[..i + 1][..i] == drops[..i];
      if has {
        out := out + [drops[i]];
      }
    }
    assert drops[..|drops|] == drops;
    err := None;
  }

  /** The filter keeps the input's order: its output is a subsequence of it. */
  lemma {:induction false} TaggedIsSubsequence(drops: seq<Instance>, tag: string)
    ensures IsSubsequence(Tagged(drops, tag), drops)
  {
    if drops != [] {
      var init := drops[..|drops| - 1];
      TaggedIsSubsequence(init, tag);
      var sub := Tagged(drops, tag);
      if tag in drops[|drops| - 1].tags {
        assert sub[..|sub| - 1] == Tagged(init, tag);
        assert sub[|sub| - 1] == drops[|drops| - 1];
      } else {
        assert sub == Tagged(init, tag);
      }
    }
  }

  /** Every droplet the filter returns carries the tag. */
  lemma {:induction false} TaggedCarryTag(drops: seq<Instance>, tag: string)
    ensures forall d :: d in Tagged(drops, tag) ==> tag in d.tags
  {
    if drops != [] {
      TaggedCarryTag(drops[..|drops| - 1], tag);
    }
  }

  /** The filter drops nothing that carries the tag: each tagged droplet occurs
      in the output exactly as often as in the input, and no other droplet
      occurs in it. */
  lemma {:induction false} TaggedMultiplicity(drops: seq<Instance>, tag: string)
    ensures forall d :: multiset(Tagged(drops, tag))[d] == if tag in d.tags then multiset(drops)[d] else 0
  {
    if drops != [] {
      var init, last := drops[..|drops| - 1], drops[|drops| - 1];
      TaggedMultiplicity(init, tag);
      assert drops == init + [last];
      assert multiset(drops) == multiset(init) + multiset{last};
    }
  }

  /** Filtering twice by the same tag gives what filtering once gives. */
  lemma {:induction false} TaggedIdempotent(drops: seq<Instance>, tag: string)
    ensures Tagged(Tagged(drops, tag), tag) == Tagged(drops, tag)
  {
    if drops != [] {
      var init, last := drops[..|drops| - 1], drops[|drops| - 1];
      TaggedIdempotent(init, tag);
      var once := Tagged(drops, tag);
      if tag in last.tags {
        assert once[..|once| - 1] == Tagged(init, tag);
        assert once[|once| - 1] == last;
      } else {
        assert once == Tagged(init, tag);
      }
    }
  }
}
