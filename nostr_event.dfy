/**
 * The helpers of the `NostrEvent` wrapper class: read-only views over an
 * event's tag list. Sets are JS Sets, so they come back as duplicate-free
 * sequences in first-occurrence order.
 */
module NostrEvent {
  import opened Nostr
  import JsSets

  /** `getTags(tagType)`: the value of every tag of type `tagType`, in tag order. */
  function GetTags(tags: seq<Tag>, tagType: string): (r: seq<string>)
    ensures |r| <= |tags|
  {
    if tags == [] then []
    else
      var last := tags[|tags| - 1];
      GetTags(tags[..|tags| - 1], tagType) + (if last[0] == tagType then [last[1]] else [])
  }

  /** The values are exactly those of the tags of type `tagType`, and nothing else. */
  lemma {:induction false} GetTagsMembers(tags: seq<Tag>, tagType: string)
    ensures forall v :: v in GetTags(tags, tagType) <==> exists i :: 0 <= i < |tags| && tags[i][0] == tagType && tags[i][1] == v
  {
    if tags != [] {
      var init := tags[..|tags| - 1];
      GetTagsMembers(init, tagType);
      forall v ensures v in GetTags(tags, tagType) <==> exists i :: 0 <= i < |tags| && tags[i][0] == tagType && tags[i][1] == v {
        if v in GetTags(tags, tagType) && v !in GetTags(init, tagType) {
          assert tags[|tags| - 1][0] == tagType && tags[|tags| - 1][1] == v;
        }
        if exists i :: 0 <= i < |tags| && tags[i][0] == tagType && tags[i][1] == v {
          var i :| 0 <= i < |tags| && tags[i][0] == tagType && tags[i][1] == v;
          if i < |tags| - 1 {
            assert init[i] == tags[i];
          }
        }
      }
    }
  }

  /** Order is kept: the values from a longer tag list extend those of its prefix. */
  lemma {:induction false} GetTagsConcat(front: seq<Tag>, back: seq<Tag>, tagType: string)
    ensures GetTags(front + back, tagType) == GetTags(front, tagType) + GetTags(back, tagType)
  {
    if back == [] {
      assert front + back == front;
    } else {
      var init := back[..|back| - 1];
      GetTagsConcat(front, init, tagType);
      assert (front + back)[..|front + back| - 1] == front + init;
      assert (front + back)[|front + back| - 1] == back[|back| - 1];
    }
  }

  /** One more tag extends the values by at most that tag's value. */
  lemma GetTagsStep(tags: seq<Tag>, i: nat, tagType: string)
    requires i < |tags|
    ensures GetTags(tags[..i + 1], tagType)
         == GetTags(tags[..i], tagType) + (if tags[i][0] == tagType then [tags[i][1]] else [])
  {
    assert tags[..i + 1][..i] == tags[..i];
  }

  /** A tag list made only of tags of other types yields nothing. */
  lemma {:induction false} GetTagsOtherTypes(tags: seq<Tag>, tagType: string)
    requires forall i :: 0 <= i < |tags| ==> tags[i][0] != tagType
    ensures GetTags(tags, tagType) == []
  {
    if tags != [] {
      GetTagsOtherTypes(tags[..|tags| - 1], tagType);
    }
  }

  /** `referencedPubkeys()`: the set of `p`-tag values. */
  function ReferencedPubkeys(e: Event): (r: seq<Pubkey>)
    ensures JsSets.NoDuplicates(r)
    ensures forall p :: p in r <==> exists i :: 0 <= i < |e.tags| && e.tags[i][0] == "p" && e.tags[i][1] == p
  {
    GetTagsMembers(e.tags, "p");
    JsSets.FromSeq(GetTags(e.tags, "p"))
  }

  /** `referencesPubkey(pubkey)`: whether some `p` tag names `pubkey`. */
  function ReferencesPubkey(e: Event, pubkey: Pubkey): (b: bool)
    ensures b <==> exists i :: 0 <= i < |e.tags| && e.tags[i][0] == "p" && e.tags[i][1] == pubkey
  {
    pubkey in ReferencedPubkeys(e)
  }

  /** `relevantPubkeys()`: the author first, then every referenced pubkey. */
  function RelevantPubkeys(e: Event): (r: seq<Pubkey>)
    ensures JsSets.NoDuplicates(r)
    ensures r != [] && r[0] == e.pubkey
    ensures forall p :: p in r <==> p == e.pubkey || p in ReferencedPubkeys(e)
  {
    JsSets.FromSeqHead([e.pubkey] + ReferencedPubkeys(e));
    JsSets.FromSeq([e.pubkey] + ReferencedPubkeys(e))
  }

  /** `referencedEventIds()`: the set of `e`-tag values. */
  function ReferencedEventIds(e: Event): (r: seq<EventId>)
    ensures JsSets.NoDuplicates(r)
    ensures forall id :: id in r <==> exists i :: 0 <= i < |e.tags| && e.tags[i][0] == "e" && e.tags[i][1] == id
  {
    GetTagsMembers(e.tags, "e");
    JsSets.FromSeq(GetTags(e.tags, "e"))
  }
}
