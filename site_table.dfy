/**
 The per-site record list that ingestion rebuilds: the list a heartbeat finds
 stored for its site (seeded with the sender when missing or empty), the
 merge that replaces the sender's old record, and the upsert the merge was
 meant to be.
 */
module SiteTable {
  import opened Servers

  /** The record the merge keeps at one position: the sender's new record if the key matches. */
  function Replaced(s: Server, sender: Server): Server
  {
    if Key(s) == Key(sender) then sender else s
  }

  /** The loop at lines 253-264: every stored record whose key is the sender's becomes
      the sender's new record; every other record is kept, in place. */
  function MergeSiteList(list: seq<Server>, sender: Server): seq<Server>
  {
    if list == [] then []
    else MergeSiteList(list[..|list| - 1], sender) + [Replaced(list[|list| - 1], sender)]
  }

  /** The list the merge walks: the stored list, or just the sender when the site has
      no list or an empty one. */
  function SeedSiteList(config: map<string, seq<Server>>, sender: Server): seq<Server>
  {
    if sender.site !in config || |config[sender.site]| == 0 then [sender] else config[sender.site]
  }

  /** The merge with the insertion it lacks: a sender whose key is not yet listed is
      appended; otherwise its record is replaced as the merge does. */
  function UpsertSiteList(list: seq<Server>, sender: Server): seq<Server>
  {
    if KeyIn(Key(sender), list) then MergeSiteList(list, sender) else list + [sender]
  }

  /** The merge keeps length and order, puts the sender at every position holding its
      key and leaves every other record as it was. */
  lemma {:induction false} MergeSiteListSpec(list: seq<Server>, sender: Server)
    ensures |MergeSiteList(list, sender)| == |list|
    ensures forall i :: 0 <= i < |list| ==> MergeSiteList(list, sender)[i] == Replaced(list[i], sender)
  {
    if list != [] {
      var init := list[..|list| - 1];
      MergeSiteListSpec(init, sender);
      var r := MergeSiteList(list, sender);
      assert r == MergeSiteList(init, sender) + [Replaced(list[|list| - 1], sender)];
      forall i | 0 <= i < |list| ensures r[i] == Replaced(list[i], sender) {
        if i < |list| - 1 {
          assert r[i] == MergeSiteList(init, sender)[i];
          assert list[i] == init[i];
        }
      }
    }
  }

  /** The merge touches no key: the key at every position, hence the key set and key
      uniqueness, are those of the stored list. */
  lemma MergeSiteListKeys(list: seq<Server>, sender: Server)
    ensures |MergeSiteList(list, sender)| == |list|
    ensures forall i :: 0 <= i < |list| ==> Key(MergeSiteList(list, sender)[i]) == Key(list[i])
    ensures KeySet(MergeSiteList(list, sender)) == KeySet(list)
    ensures KeysUnique(list) ==> KeysUnique(MergeSiteList(list, sender))
  {
    MergeSiteListSpec(list, sender);
    var r := MergeSiteList(list, sender);
    assert forall i :: 0 <= i < |list| ==> Key(r[i]) == Key(list[i]);
    assert KeySet(r) == KeySet(list) by {
      forall k | k in KeySet(list) ensures k in KeySet(r) {
        var i :| 0 <= i < |list| && Key(list[i]) == k;
        assert Key(r[i]) == k;
      }
    }
  }

  /** A sender whose key is not in a non-empty stored list is NOT added: the merge
      gives back the stored list unchanged. */
  lemma MergeSiteListOmitsNewSender(list: seq<Server>, sender: Server)
    requires !KeyIn(Key(sender), list)
    ensures MergeSiteList(list, sender) == list
    ensures !KeyIn(Key(sender), MergeSiteList(list, sender))
  {
    MergeSiteListSpec(list, sender);
    assert forall i :: 0 <= i < |list| ==> Key(list[i]) != Key(sender);
  }

  /** Merging the same record twice is merging it once: a repeated heartbeat never
      duplicates a record. */
  lemma MergeSiteListIdempotent(list: seq<Server>, sender: Server)
    ensures MergeSiteList(MergeSiteList(list, sender), sender) == MergeSiteList(list, sender)
  {
    MergeSiteListSpec(list, sender);
    MergeSiteListSpec(MergeSiteList(list, sender), sender);
  }

  /** A seeded list holds the sender once, and the merge leaves it so. */
  lemma SeedSiteListHoldsSender(config: map<string, seq<Server>>, sender: Server)
    requires sender.site !in config || config[sender.site] == []
    ensures MergeSiteList(SeedSiteList(config, sender), sender) == [sender]
  {
    MergeSiteListSpec([sender], sender);
  }

  /** After the upsert the sender's key is listed, every record with that key is the
      sender's, and the other stored records keep their places. */
  lemma UpsertSiteListSpec(list: seq<Server>, sender: Server)
    ensures KeyIn(Key(sender), UpsertSiteList(list, sender))
    ensures |list| <= |UpsertSiteList(list, sender)| <= |list| + 1
    ensures forall i :: 0 <= i < |UpsertSiteList(list, sender)| && Key(UpsertSiteList(list, sender)[i]) == Key(sender) ==>
      UpsertSiteList(list, sender)[i] == sender
    ensures forall i :: 0 <= i < |list| && Key(list[i]) != Key(sender) ==> UpsertSiteList(list, sender)[i] == list[i]
    ensures !KeyIn(Key(sender), list) ==> UpsertSiteList(list, sender) == list + [sender]
    ensures KeyIn(Key(sender), list) ==> |UpsertSiteList(list, sender)| == |list|
  {
    var r := UpsertSiteList(list, sender);
    MergeSiteListSpec(list, sender);
    if KeyIn(Key(sender), list) {
      var i :| 0 <= i < |list| && Key(list[i]) == Key(sender);
      assert r[i] == sender;
    } else {
      assert r[|list|] == sender;
    }
  }

  /** The upsert adds exactly the sender's key to the key set and keeps keys unique. */
  lemma UpsertSiteListKeys(list: seq<Server>, sender: Server)
    ensures KeySet(UpsertSiteList(list, sender)) == KeySet(list) + {Key(sender)}
    ensures KeysUnique(list) ==> KeysUnique(UpsertSiteList(list, sender))
  {
    var r := UpsertSiteList(list, sender);
    if KeyIn(Key(sender), list) {
      MergeSiteListKeys(list, sender);
      KeyInKeySet(Key(sender), list);
    } else {
      assert r == list + [sender];
      assert KeySet(r) == KeySet(list) + {Key(sender)} by {
        forall k | k in KeySet(r) ensures k in KeySet(list) + {Key(sender)} {
          var i :| 0 <= i < |r| && Key(r[i]) == k;
          if i < |list| { assert r[i] == list[i]; }
        }
        forall k | k in KeySet(list) ensures k in KeySet(r) {
          var i :| 0 <= i < |list| && Key(list[i]) == k;
          assert r[i] == list[i];
        }
        assert Key(r[|list|]) == Key(sender);
      }
    }
  }

  /** The merge loop itself: walks the stored list and builds the rebuilt list. */
  method RebuildSiteList(list: seq<Server>, sender: Server) returns (tmp: seq<Server>)
    ensures tmp == MergeSiteList(list, sender)
  {
    tmp := [];
    for i := 0 to |list|
      invariant tmp == MergeSiteList(list[..i], sender)
    {
      assert list[..i + 1][..i] == list[..i];
      if Key(list[i]) == Key(sender) {
        tmp := tmp + [sender];
        continue;
      }
      tmp := tmp + [list[i]];
    }
    assert list[..|list|] == list;
  }
}
