/**
 The server-list refresh: reading the configured `ip:port` entries into members,
 and reconciling the held full list against them with the multiset subtraction
 and the remove-all of the collection library.
 */
module Reconcile {
  import opened Servers

  /** A member built from a configured entry: only ip and port are set. */
  function ConfiguredServer(ip: string, port: int): Server
  {
    Server("", ip, port, false, 0)
  }

  /** The entries the refresh walks: a failed configuration read leaves the empty list. */
  function ConfiguredEntries(conf: Option<seq<string>>): seq<string>
  {
    if conf.Some? then conf.value else []
  }

  /** The refresh loop as a function: one member per entry, in order; the first entry
      that does not parse fails the whole refresh. */
  function ParseServerList(entries: seq<string>): Result<seq<Server>>
  {
    if entries == [] then Ok([])
    else match ParseServerList(entries[..|entries| - 1])
      case Err(e) => Err(e)
      case Ok(prefix) =>
        match ParseAddress(entries[|entries| - 1])
        case Err(e) => Err(e)
        case Ok((ip, port)) => Ok(prefix + [ConfiguredServer(ip, port)])
  }

  /** The refresh loop itself. */
  method RefreshServerList(conf: Option<seq<string>>) returns (r: Result<seq<Server>>)
    ensures r == ParseServerList(ConfiguredEntries(conf))
  {
    var serverList := ConfiguredEntries(conf);
    var result := [];
    for i := 0 to |serverList|
      invariant ParseServerList(serverList[..i]) == Ok(result)
    {
      assert serverList[..i + 1][..i] == serverList[..i];
      match ParseAddress(serverList[i])
      case Err(e) =>
        ParseServerListKeepsError(serverList, i + 1);
        return Err(e);
      case Ok((ip, port)) =>
        result := result + [ConfiguredServer(ip, port)];
    }
    assert serverList[..|serverList|] == serverList;
    r := Ok(result);
  }

  /** Once a prefix fails, the whole list fails with the same error. */
  lemma {:induction false} ParseServerListKeepsError(entries: seq<string>, n: nat)
    requires n <= |entries| && ParseServerList(entries[..n]).Err?
    ensures ParseServerList(entries) == ParseServerList(entries[..n])
    decreases |entries| - n
  {
    if n < |entries| {
      assert entries[..n + 1][..n] == entries[..n];
      ParseServerListKeepsError(entries, n + 1);
    } else {
      assert entries[..n] == entries;
    }
  }

  /** The refresh succeeds exactly when every entry parses, and then yields one member per
      entry, in order, carrying that entry's ip and port. */
  lemma {:induction false} ParseServerListSpec(entries: seq<string>)
    ensures ParseServerList(entries).Ok? <==> forall i :: 0 <= i < |entries| ==> ParseAddress(entries[i]).Ok?
    ensures ParseServerList(entries).Ok? ==>
      |ParseServerList(entries).value| == |entries| &&
      forall i :: 0 <= i < |entries| ==>
        ParseServerList(entries).value[i] == ConfiguredServer(ParseAddress(entries[i]).value.0, ParseAddress(entries[i]).value.1)
  {
    if entries != [] {
      var init := entries[..|entries| - 1];
      ParseServerListSpec(init);
      assert forall i :: 0 <= i < |init| ==> init[i] == entries[i];
      if !ParseServerList(init).Ok? {
        var i :| 0 <= i < |init| && !ParseAddress(init[i]).Ok?;
        assert !ParseAddress(entries[i]).Ok?;
      }
    }
  }

  /** Entries written as `ip:port` (an ip without the separator, an int port) yield
      members whose keys are exactly those entries. */
  lemma CanonicalEntriesKeys(ips: seq<string>, ports: seq<int>, entries: seq<string>)
    requires |ips| == |ports| == |entries|
    requires forall i :: 0 <= i < |entries| ==> SEP !in ips[i] && IsInt(ports[i]) && entries[i] == Address(ips[i], ports[i])
    ensures ParseServerList(entries).Ok?
    ensures |ParseServerList(entries).value| == |entries|
    ensures forall i :: 0 <= i < |entries| ==> Key(ParseServerList(entries).value[i]) == entries[i]
  {
    forall i | 0 <= i < |entries| ensures ParseAddress(entries[i]) == Ok((ips[i], ports[i])) {
      AddressRoundTrip(ips[i], ports[i]);
    }
    ParseServerListSpec(entries);
  }

  // ---------------------------------------------------------------------
  // CollectionUtils.subtract and List.removeAll, under key equality
  // ---------------------------------------------------------------------

  function KeyBag(list: seq<Server>): multiset<string>
  {
    if list == [] then multiset{} else KeyBag(list[..|list| - 1]) + multiset{Key(list[|list| - 1])}
  }

  /** Walks `a` in order; an element whose key is still in the bag uses up one copy of
      that key and is dropped, every other element is kept. */
  function SubtractBag(a: seq<Server>, bag: multiset<string>): seq<Server>
  {
    if a == [] then []
    else if Key(a[0]) in bag then SubtractBag(a[1..], bag - multiset{Key(a[0])})
    else [a[0]] + SubtractBag(a[1..], bag)
  }

  /** `CollectionUtils.subtract(a, b)`: `a` with one occurrence removed per element of `b`. */
  function Subtract(a: seq<Server>, b: seq<Server>): seq<Server>
  {
    SubtractBag(a, KeyBag(b))
  }

  /** The elements of `list` whose key is not in `ks`, in order. */
  function Without(list: seq<Server>, ks: set<string>): seq<Server>
  {
    if list == [] then []
    else (if Key(list[0]) in ks then [] else [list[0]]) + Without(list[1..], ks)
  }

  /** `list.removeAll(c)`: every element equal to some element of `c` goes. */
  function RemoveAll(list: seq<Server>, c: seq<Server>): seq<Server>
  {
    Without(list, KeySet(c))
  }

  datatype Reconciled = Reconciled(servers: seq<Server>, changed: bool)

  /** One updater run on a held list `held` and a refreshed list. The newcomers are
      appended first; because the code's `oldServers` is the same list object as
      `servers`, the dead members are then computed from the grown list. */
  function Reconcile(held: seq<Server>, refreshed: seq<Server>): Reconciled
  {
    var added := Subtract(refreshed, held);
    var grown := if added != [] then held + added else held;
    var dead := Subtract(grown, refreshed);
    var final := if dead != [] then RemoveAll(grown, dead) else grown;
    Reconciled(final, added != [] || dead != [])
  }

  // ---------------------------------------------------------------------
  // Lemmas
  // ---------------------------------------------------------------------

  lemma {:induction false} KeyBagKeys(list: seq<Server>)
    ensures forall k :: k in KeyBag(list) <==> k in KeySet(list)
  {
    if list != [] {
      var init := list[..|list| - 1];
      var last := list[|list| - 1];
      KeyBagKeys(init);
      assert list == init + [last];
      KeySetConcat(init, [last]);
      KeySetCons(last, []);
      assert [last] + [] == [last];
    }
  }

  lemma KeySetCons(x: Server, r: seq<Server>)
    ensures KeySet([x] + r) == {Key(x)} + KeySet(r)
  {
    var l := [x] + r;
    forall k | k in KeySet(l) ensures k in {Key(x)} + KeySet(r) {
      var i :| 0 <= i < |l| && Key(l[i]) == k;
      if i > 0 { assert l[i] == r[i - 1]; }
    }
    forall k | k in KeySet(r) ensures k in KeySet(l) {
      var i :| 0 <= i < |r| && Key(r[i]) == k;
      assert l[i + 1] == r[i];
    }
    assert l[0] == x;
  }

  lemma KeysUniqueCons(x: Server, r: seq<Server>)
    ensures KeysUnique([x] + r) <==> Key(x) !in KeySet(r) && KeysUnique(r)
  {
    var l := [x] + r;
    assert l[0] == x;
    assert forall i :: 0 <= i < |r| ==> l[i + 1] == r[i];
    if KeysUnique(l) {
      forall i, j | 0 <= i < j < |r| ensures Key(r[i]) != Key(r[j]) {
        assert Key(l[i + 1]) != Key(l[j + 1]);
      }
      forall k | k in KeySet(r) ensures k != Key(x) {
        var i :| 0 <= i < |r| && Key(r[i]) == k;
        assert Key(l[0]) != Key(l[i + 1]);
      }
    }
    if Key(x) !in KeySet(r) && KeysUnique(r) {
      forall i, j | 0 <= i < j < |l| ensures Key(l[i]) != Key(l[j]) {
        if i == 0 {
          assert Key(r[j - 1]) in KeySet(r);
        } else {
          assert Key(r[i - 1]) != Key(r[j - 1]);
        }
      }
    }
  }

  lemma KeySetEmpty(list: seq<Server>)
    ensures KeySet(list) == {} <==> list == []
  {
    if list != [] {
      assert Key(list[0]) in KeySet(list);
    }
  }

  /** `Without` keeps exactly the elements whose key is outside `ks`. */
  lemma {:induction false} WithoutMembers(list: seq<Server>, ks: set<string>)
    ensures forall e :: e in Without(list, ks) <==> e in list && Key(e) !in ks
  {
    if list != [] {
      WithoutMembers(list[1..], ks);
      assert list == [list[0]] + list[1..];
    }
  }

  /** The key set of `Without(list, ks)` is the rest of the keys of `list`. */
  lemma {:induction false} WithoutKeys(list: seq<Server>, ks: set<string>)
    ensures KeySet(Without(list, ks)) == KeySet(list) - ks
  {
    if list != [] {
      var x, rest := list[0], list[1..];
      assert list == [x] + rest;
      WithoutKeys(rest, ks);
      KeySetCons(x, rest);
      if Key(x) !in ks {
        KeySetCons(x, Without(rest, ks));
      } else {
        assert Without(list, ks) == [] + Without(rest, ks);
        assert Without(list, ks) == Without(rest, ks);
      }
    }
  }

  /** `Without` keeps keys unique. */
  lemma {:induction false} WithoutUnique(list: seq<Server>, ks: set<string>)
    requires KeysUnique(list)
    ensures KeysUnique(Without(list, ks))
  {
    if list != [] {
      var x, rest := list[0], list[1..];
      assert list == [x] + rest;
      KeysUniqueCons(x, rest);
      WithoutUnique(rest, ks);
      var w := Without(rest, ks);
      if Key(x) !in ks {
        WithoutKeys(rest, ks);
        KeysUniqueCons(x, w);
      } else {
        assert Without(list, ks) == [] + w;
      }
    }
  }

  lemma {:induction false} WithoutConcat(a: seq<Server>, b: seq<Server>, ks: set<string>)
    ensures Without(a + b, ks) == Without(a, ks) + Without(b, ks)
  {
    if a != [] {
      var h := if Key(a[0]) in ks then [] else [a[0]];
      assert (a + b)[0] == a[0];
      assert (a + b)[1..] == a[1..] + b;
      assert Without(a + b, ks) == h + Without(a[1..] + b, ks);
      WithoutConcat(a[1..], b, ks);
      assert Without(a, ks) == h + Without(a[1..], ks);
    } else {
      assert a + b == b;
    }
  }

  lemma {:induction false} WithoutDisjoint(list: seq<Server>, ks: set<string>)
    requires KeySet(list) !! ks
    ensures Without(list, ks) == list
  {
    if list != [] {
      KeySetCons(list[0], list[1..]);
      assert list == [list[0]] + list[1..];
      WithoutDisjoint(list[1..], ks);
    }
  }

  lemma KeySetConcat(a: seq<Server>, b: seq<Server>)
    ensures KeySet(a + b) == KeySet(a) + KeySet(b)
  {
    var l := a + b;
    forall k | k in KeySet(l) ensures k in KeySet(a) + KeySet(b) {
      var i :| 0 <= i < |l| && Key(l[i]) == k;
      if i < |a| { assert l[i] == a[i]; } else { assert l[i] == b[i - |a|]; }
    }
    forall k | k in KeySet(a) ensures k in KeySet(l) {
      var i :| 0 <= i < |a| && Key(a[i]) == k;
      assert l[i] == a[i];
    }
    forall k | k in KeySet(b) ensures k in KeySet(l) {
      var i :| 0 <= i < |b| && Key(b[i]) == k;
      assert l[|a| + i] == b[i];
    }
  }

  lemma KeysUniqueConcat(a: seq<Server>, b: seq<Server>)
    requires KeysUnique(a) && KeysUnique(b) && KeySet(a) !! KeySet(b)
    ensures KeysUnique(a + b)
  {
    var l := a + b;
    forall i, j | 0 <= i < j < |l| ensures Key(l[i]) != Key(l[j]) {
      if j < |a| {
        assert l[i] == a[i] && l[j] == a[j];
      } else if i >= |a| {
        assert l[i] == b[i - |a|] && l[j] == b[j - |a|];
      } else {
        assert l[i] == a[i] && l[j] == b[j - |a|];
        assert Key(a[i]) in KeySet(a) && Key(b[j - |a|]) in KeySet(b);
      }
    }
  }

  /** On a list without repeated keys, the multiset subtraction removes exactly the
      elements whose key occurs in the bag. */
  lemma {:induction false} SubtractBagUnique(a: seq<Server>, bag: multiset<string>, ks: set<string>)
    requires KeysUnique(a)
    requires forall k :: k in bag <==> k in ks
    ensures SubtractBag(a, bag) == Without(a, ks)
  {
    if a != [] {
      var x, rest := a[0], a[1..];
      assert a == [x] + rest;
      KeysUniqueCons(x, rest);
      if Key(x) in bag {
        var bag' := bag - multiset{Key(x)};
        var ks' := set k | k in bag';
        SubtractBagUnique(rest, bag', ks');
        WithoutAgree(rest, ks', ks);
      } else {
        SubtractBagUnique(rest, bag, ks);
      }
    }
  }

  lemma {:induction false} WithoutAgree(list: seq<Server>, ks1: set<string>, ks2: set<string>)
    requires forall i :: 0 <= i < |list| ==> (Key(list[i]) in ks1 <==> Key(list[i]) in ks2)
    ensures Without(list, ks1) == Without(list, ks2)
  {
    if list != [] {
      WithoutAgree(list[1..], ks1, ks2);
    }
  }

  lemma SubtractUnique(a: seq<Server>, b: seq<Server>)
    requires KeysUnique(a)
    ensures Subtract(a, b) == Without(a, KeySet(b))
  {
    KeyBagKeys(b);
    SubtractBagUnique(a, KeyBag(b), KeySet(b));
  }

  lemma {:induction false} SubtractEmptyBag(a: seq<Server>)
    ensures SubtractBag(a, multiset{}) == a
  {
    if a != [] {
      SubtractEmptyBag(a[1..]);
    }
  }

  lemma {:induction false} WithoutOwnKeys(list: seq<Server>)
    ensures Without(list, KeySet(list)) == []
  {
    WithoutKeys(list, KeySet(list));
    KeySetEmpty(Without(list, KeySet(list)));
  }

  /** For lists without repeated keys, the run appends the refreshed members whose keys
      were not held and then drops the held members whose keys were not refreshed. */
  lemma ReconcileShape(held: seq<Server>, refreshed: seq<Server>)
    requires KeysUnique(held) && KeysUnique(refreshed)
    ensures Reconcile(held, refreshed).servers
         == Without(held + Without(refreshed, KeySet(held)), KeySet(held) - KeySet(refreshed))
    ensures Reconcile(held, refreshed).changed <==>
      (KeySet(refreshed) - KeySet(held) != {} || KeySet(held) - KeySet(refreshed) != {})
  {
    var KO, KR := KeySet(held), KeySet(refreshed);
    var added := Subtract(refreshed, held);
    SubtractUnique(refreshed, held);
    WithoutKeys(refreshed, KO);
    WithoutUnique(refreshed, KO);
    KeySetEmpty(added);
    var grown := held + added;
    assert grown == (if added != [] then held + added else held);
    KeySetConcat(held, added);
    KeysUniqueConcat(held, added);
    var dead := Subtract(grown, refreshed);
    SubtractUnique(grown, refreshed);
    WithoutKeys(grown, KR);
    assert KeySet(dead) == KO - KR;
    KeySetEmpty(dead);
    if dead == [] {
      WithoutDisjoint(grown, KO - KR);
    }
  }

  /** For held and refreshed lists without repeated keys, a run leaves exactly the refreshed
      keys, without repeats, and reports a change exactly when the key sets differ. */
  lemma ReconcileSpec(held: seq<Server>, refreshed: seq<Server>)
    requires KeysUnique(held) && KeysUnique(refreshed)
    ensures KeySet(Reconcile(held, refreshed).servers) == KeySet(refreshed)
    ensures KeysUnique(Reconcile(held, refreshed).servers)
    ensures Reconcile(held, refreshed).changed <==> KeySet(held) != KeySet(refreshed)
  {
    var KO, KR := KeySet(held), KeySet(refreshed);
    ReconcileShape(held, refreshed);
    var added := Without(refreshed, KO);
    WithoutKeys(refreshed, KO);
    WithoutUnique(refreshed, KO);
    var grown := held + added;
    KeySetConcat(held, added);
    KeysUniqueConcat(held, added);
    WithoutKeys(grown, KO - KR);
    WithoutUnique(grown, KO - KR);
    assert (KO + (KR - KO)) - (KO - KR) == KR;
    assert KO != KR <==> (KR - KO != {} || KO - KR != {});
  }

  /** For lists without repeated keys, the run keeps the held members that are still
      configured, in their old order, followed by the newcomers in refreshed order. */
  lemma ReconcileOrder(held: seq<Server>, refreshed: seq<Server>)
    requires KeysUnique(held) && KeysUnique(refreshed)
    ensures Reconcile(held, refreshed).servers
         == Without(held, KeySet(held) - KeySet(refreshed)) + Without(refreshed, KeySet(held))
  {
    var KO, KR := KeySet(held), KeySet(refreshed);
    ReconcileShape(held, refreshed);
    var added := Without(refreshed, KO);
    WithoutKeys(refreshed, KO);
    WithoutConcat(held, added, KO - KR);
    WithoutDisjoint(added, KO - KR);
  }

  /** A failed configuration read gives the empty refreshed list, and the run then removes
      every member, reporting a change exactly when there was one to remove. */
  lemma ReconcileWithNothingConfigured(held: seq<Server>)
    ensures Reconcile(held, []) == Reconciled([], held != [])
  {
    assert KeyBag(held) == KeyBag(held);
    assert Subtract([], held) == [];
    assert KeyBag([]) == multiset{};
    SubtractEmptyBag(held);
    WithoutOwnKeys(held);
  }
}
