/**
 * The mute-list matcher: whether a user's public mute list (a NIP-51 list of
 * kind 10000) silences the notification for an event. The list is the value
 * the relay subscription would deliver for the user, `None` when the relay
 * has none.
 */
module MuteManager {
  import opened Wrappers
  import opened Nostr
  import NostrEvent

  /** `toLowerCase` on the ASCII letters; every other character is kept. */
  function LowerChar(c: char): (r: char)
    ensures 'A' <= c <= 'Z' ==> r as int == c as int + 32
    ensures !('A' <= c <= 'Z') ==> r == c
    ensures !('A' <= r <= 'Z')
  {
    if 'A' <= c <= 'Z' then (c as int + 32) as char else c
  }

  function ToLower(s: string): (r: string)
    ensures |r| == |s|
    ensures forall i :: 0 <= i < |s| ==> r[i] == LowerChar(s[i])
  {
    seq(|s|, i requires 0 <= i < |s| => LowerChar(s[i]))
  }

  /** Lower-casing commutes with taking a slice. */
  lemma ToLowerSlice(s: string, lo: nat, hi: nat)
    requires lo <= hi <= |s|
    ensures ToLower(s)[lo..hi] == ToLower(s[lo..hi])
  {
  }

  function StartsWith(s: string, prefix: string): bool {
    |prefix| <= |s| && s[..|prefix|] == prefix
  }

  /** `sub` sits in `s` starting at position `i`. */
  predicate OccursAt(s: string, sub: string, i: nat) {
    i + |sub| <= |s| && s[i..i + |sub|] == sub
  }

  /** `String.prototype.includes`: `sub` occurs in `s` (the empty string occurs everywhere). */
  function Includes(s: string, sub: string): (b: bool)
    ensures sub == [] ==> b
    ensures b ==> |sub| <= |s|
    decreases |s|
  {
    StartsWith(s, sub) || (s != [] && Includes(s[1..], sub))
  }

  /** `Includes` holds exactly when `sub` sits at some position of `s`. */
  lemma {:induction false} IncludesIff(s: string, sub: string)
    ensures Includes(s, sub) <==> exists i: nat :: OccursAt(s, sub, i)
  {
    if StartsWith(s, sub) {
      assert OccursAt(s, sub, 0);
    } else if s == [] {
    } else {
      var tail := s[1..];
      IncludesIff(tail, sub);
      if Includes(tail, sub) {
        var j: nat :| OccursAt(tail, sub, j);
        assert s[j + 1..j + 1 + |sub|] == tail[j..j + |sub|];
        assert OccursAt(s, sub, j + 1);
      }
      if exists i: nat :: OccursAt(s, sub, i) {
        var i: nat :| OccursAt(s, sub, i);
        if i > 0 {
          assert tail[i - 1..i - 1 + |sub|] == s[i..i + |sub|];
          assert OccursAt(tail, sub, i - 1);
        }
      }
    }
  }

  /**
   * How one mute-list tag judges the event, by the tag's type:
   *   `p`    the event's author is the muted pubkey;
   *   `e`    the event is the muted event, or references it in an `e` tag;
   *   `t`    the muted hashtag is the value of one of the event's `h` tags
   *          (the matcher reads `h` tags here, not the `t` tags that carry hashtags);
   *   `word` the lower-cased word occurs in the lower-cased content;
   * and a tag of any other type mutes nothing.
   */
  function TagMutes(e: Event, tag: Tag): (b: bool)
    ensures tag[0] == "p" ==> (b <==> e.pubkey == tag[1])
    ensures tag[0] == "e" ==>
              (b <==> e.id == tag[1] || exists i :: 0 <= i < |e.tags| && e.tags[i][0] == "e" && e.tags[i][1] == tag[1])
    ensures tag[0] == "t" ==>
              (b <==> exists i :: 0 <= i < |e.tags| && e.tags[i][0] == "h" && e.tags[i][1] == tag[1])
    ensures tag[0] == "word" ==>
              (b <==> exists k: nat :: OccursAt(ToLower(e.content), ToLower(tag[1]), k))
    ensures tag[0] !in {"p", "e", "t", "word"} ==> !b
  {
    NostrEvent.GetTagsMembers(e.tags, "h");
    IncludesIff(ToLower(e.content), ToLower(tag[1]));
    match tag[0]
    case "p" => e.pubkey == tag[1]
    case "e" => e.id == tag[1] || tag[1] in NostrEvent.ReferencedEventIds(e)
    case "t" => tag[1] in NostrEvent.GetTags(e.tags, "h")
    case "word" => Includes(ToLower(e.content), ToLower(tag[1]))
    case _ => false
  }

  /** The decision: there is a mute list and one of its tags mutes the event. */
  predicate MutedBy(muteList: Option<Event>, e: Event) {
    muteList.Some? && exists i :: 0 <= i < |muteList.value.tags| && TagMutes(e, muteList.value.tags[i])
  }

  /**
   * `shouldMuteNotificationForPubkey`, given the mute list fetched for the
   * pubkey: visits the list's tags in order and answers `true` at the first
   * one that mutes, `false` when none does.
   */
  method ShouldMuteNotificationForPubkey(muteList: Option<Event>, e: Event) returns (muted: bool)
    ensures muted == MutedBy(muteList, e)
  {
    if muteList.None? {
      return false;
    }
    var tags := muteList.value.tags;
    for i := 0 to |tags|
      invariant forall j :: 0 <= j < i ==> !TagMutes(e, tags[j])
    {
      var tag := tags[i];
      if tag[0] == "p" {
        if e.pubkey == tag[1] {
          return true;
        }
      } else if tag[0] == "e" {
        if e.id == tag[1] || tag[1] in NostrEvent.ReferencedEventIds(e) {
          return true;
        }
      } else if tag[0] == "t" {
        if tag[1] in NostrEvent.GetTags(e.tags, "h") {
          return true;
        }
      } else if tag[0] == "word" {
        if Includes(ToLower(e.content), ToLower(tag[1])) {
          return true;
        }
      }
    }
    return false;
  }

  /** Without a mute list nothing is muted. */
  lemma NoMuteListNoMute(e: Event)
    ensures !MutedBy(None, e)
  {
  }

  /** A `p` entry naming the author mutes the event, wherever it sits in the list. */
  lemma AuthorMuteMutes(muteList: Event, e: Event, i: nat)
    requires i < |muteList.tags| && muteList.tags[i][0] == "p" && muteList.tags[i][1] == e.pubkey
    ensures MutedBy(Some(muteList), e)
  {
    assert TagMutes(e, muteList.tags[i]);
  }

  /** An `e` entry naming the event itself, or an event it references, mutes it. */
  lemma ThreadMuteMutes(muteList: Event, e: Event, i: nat)
    requires i < |muteList.tags| && muteList.tags[i][0] == "e"
    requires muteList.tags[i][1] == e.id || muteList.tags[i][1] in NostrEvent.ReferencedEventIds(e)
    ensures MutedBy(Some(muteList), e)
  {
    assert TagMutes(e, muteList.tags[i]);
  }

  /**
   * A `word` entry mutes every event whose content contains the word,
   * whatever the case of either: containment survives lower-casing.
   */
  lemma {:induction false} WordMuteIgnoresCase(muteList: Event, e: Event, i: nat)
    requires i < |muteList.tags| && muteList.tags[i][0] == "word"
    requires Includes(e.content, muteList.tags[i][1])
    ensures MutedBy(Some(muteList), e)
  {
    var word := muteList.tags[i][1];
    IncludesIff(e.content, word);
    var k: nat :| OccursAt(e.content, word, k);
    ToLowerSlice(e.content, k, k + |word|);
    assert OccursAt(ToLower(e.content), ToLower(word), k);
    assert TagMutes(e, muteList.tags[i]);
  }

  /** A `word` entry with the empty word mutes every event: the empty string occurs in any content. */
  lemma EmptyWordMutesAll(muteList: Event, e: Event, i: nat)
    requires i < |muteList.tags| && muteList.tags[i][0] == "word" && muteList.tags[i][1] == ""
    ensures MutedBy(Some(muteList), e)
  {
    assert OccursAt(ToLower(e.content), ToLower(""), 0);
    assert TagMutes(e, muteList.tags[i]);
  }

  /**
   * The `t` entry reads the event's `h` tags: an event that carries the muted
   * hashtag only as a `t` tag is not muted by it.
   */
  lemma HashtagMuteReadsHTags(hashtag: string, e: Event)
    requires forall i :: 0 <= i < |e.tags| ==> e.tags[i][0] != "h"
    ensures !MutedBy(Some(e.(tags := [["t", hashtag]])), e)
    ensures !MutedBy(Some(e.(tags := [["t", hashtag]])), e.(tags := e.tags + [["t", hashtag]]))
  {
    var e2 := e.(tags := e.tags + [["t", hashtag]]);
    assert forall i :: 0 <= i < |e2.tags| ==> e2.tags[i][0] != "h" by {
      forall i | 0 <= i < |e2.tags|
        ensures e2.tags[i][0] != "h"
      {
        if i < |e.tags| {
          assert e2.tags[i] == e.tags[i];
        }
      }
    }
  }

  /** Only whether some tag mutes matters: the order of the list's tags does not. */
  lemma OrderIndependent(listA: Event, listB: Event, e: Event)
    requires multiset(listA.tags) == multiset(listB.tags)
    ensures MutedBy(Some(listA), e) == MutedBy(Some(listB), e)
  {
    if MutedBy(Some(listA), e) {
      var i :| 0 <= i < |listA.tags| && TagMutes(e, listA.tags[i]);
      assert listA.tags[i] in multiset(listB.tags);
      var j :| 0 <= j < |listB.tags| && listB.tags[j] == listA.tags[i];
    }
    if MutedBy(Some(listB), e) {
      var j :| 0 <= j < |listB.tags| && TagMutes(e, listB.tags[j]);
      assert listB.tags[j] in multiset(listA.tags);
      var i :| 0 <= i < |listA.tags| && listA.tags[i] == listB.tags[j];
    }
  }

  /** Entries of types the matcher does not know (`a`, `relay`, ...) never change the answer. */
  lemma UnknownTypesIgnored(muteList: Event, extra: seq<Tag>, e: Event)
    requires forall i :: 0 <= i < |extra| ==> extra[i][0] !in {"p", "e", "t", "word"}
    ensures MutedBy(Some(muteList.(tags := muteList.tags + extra)), e) == MutedBy(Some(muteList), e)
  {
    var all := muteList.tags + extra;
    assert forall j :: |muteList.tags| <= j < |all| ==> !TagMutes(e, all[j]) by {
      forall j | |muteList.tags| <= j < |all|
        ensures !TagMutes(e, all[j])
      {
        assert all[j] == extra[j - |muteList.tags|];
      }
    }
    if MutedBy(Some(muteList.(tags := all)), e) {
      var i :| 0 <= i < |all| && TagMutes(e, all[i]);
      assert all[i] == muteList.tags[i];
    }
    if MutedBy(Some(muteList), e) {
      var i :| 0 <= i < |muteList.tags| && TagMutes(e, muteList.tags[i]);
      assert all[i] == muteList.tags[i];
    }
  }
}
