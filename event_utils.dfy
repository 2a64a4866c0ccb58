/**
 * The free-standing event helpers used by the relay policy. They compute the
 * same sets as the `NostrEvent` class, by a loop instead of a filter/map.
 */
module EventUtils {
  import opened Nostr
  import JsSets
  import NostrEvent

  /** `referencedPubkeysFromEvent`: visits every tag and adds the value of each `p` tag to a set. */
  method ReferencedPubkeysFromEvent(e: Event) returns (pubkeys: seq<Pubkey>)
    ensures pubkeys == NostrEvent.ReferencedPubkeys(e)
    ensures JsSets.NoDuplicates(pubkeys)
    ensures forall p :: p in pubkeys <==> exists i :: 0 <= i < |e.tags| && e.tags[i][0] == "p" && e.tags[i][1] == p
  {
    pubkeys := [];
    ghost var seen: seq<string> := [];
    for i := 0 to |e.tags|
      invariant seen == NostrEvent.GetTags(e.tags[..i], "p")
      invariant pubkeys == JsSets.FromSeq(seen)
    {
      var tag := e.tags[i];
      NostrEvent.GetTagsStep(e.tags, i, "p");
      if tag[0] == "p" {
        JsSets.FromSeqSnoc(seen, tag[1]);
        pubkeys := JsSets.Add(pubkeys, tag[1]);
        seen := seen + [tag[1]];
      } else {
        assert seen + [] == seen;
      }
    }
    assert pubkeys == NostrEvent.ReferencedPubkeys(e) by {
      assert e.tags[..|e.tags|] == e.tags;
    }
  }

  /**
   * Only `p` tags matter: adding tags of any other type, `e` tags of a thread
   * included, leaves the referenced pubkeys as they were.
   */
  lemma NoThreadExpansion(e: Event, extra: seq<Tag>)
    requires forall i :: 0 <= i < |extra| ==> extra[i][0] != "p"
    ensures NostrEvent.ReferencedPubkeys(e.(tags := e.tags + extra)) == NostrEvent.ReferencedPubkeys(e)
  {
    NostrEvent.GetTagsConcat(e.tags, extra, "p");
    NostrEvent.GetTagsOtherTypes(extra, "p");
    assert NostrEvent.GetTags(e.tags + extra, "p") == NostrEvent.GetTags(e.tags, "p");
  }

  /** `relevantPubkeysFromEvent`: the author, then the referenced pubkeys. */
  method RelevantPubkeysFromEvent(e: Event) returns (r: seq<Pubkey>)
    ensures r != [] && r[0] == e.pubkey
    ensures forall p :: p in r <==> p == e.pubkey || exists i :: 0 <= i < |e.tags| && e.tags[i][0] == "p" && e.tags[i][1] == p
    ensures r == NostrEvent.RelevantPubkeys(e)
  {
    var referenced := ReferencedPubkeysFromEvent(e);
    r := JsSets.FromSeq([e.pubkey] + referenced);
    JsSets.FromSeqHead([e.pubkey] + referenced);
  }
}
