/** Exactly which keys a reset of one policy deletes. */
module Reset {
  import opened Keys

  function Needle(id: string): string { ":" + id + ":" }

  /** The policy's id does not show up, between colons, in what follows the other policy's id in a key. */
  ghost predicate Spared(a: Algorithm, client: string, id: string) {
    !Occurs(Needle(id), ":" + client + if a.Windowed() then ":" else "")
  }

  lemma OccursCons(needle: string, s: string)
    requires s != ""
    ensures Occurs(needle, s) <==> needle <= s || Occurs(needle, s[1..])
  {
    if needle <= s {
      assert s[0..] == s;
      assert OccursAt(needle, s, 0);
    } else {
      OccursInTail(needle, s);
    }
  }

  lemma {:induction false} OccursAfterPlain(needle: string, a: string, s: string)
    requires needle != "" && needle[0] == ':' && ':' !in a
    ensures Occurs(needle, a + s) <==> Occurs(needle, s)
  {
    if a == "" {
      assert a + s == s;
    } else {
      OccursCons(needle, a + s);
      assert (a + s)[0] == a[0] && (a + s)[1..] == a[1..] + s;
      OccursAfterPlain(needle, a[1..], s);
    }
  }

  lemma OccursBeforePlain(needle: string, s: string, a: string)
    requires needle != "" && needle[|needle| - 1] == ':' && ':' !in a
    ensures Occurs(needle, s + a) <==> Occurs(needle, s)
  {
    if Occurs(needle, s) {
      var i: nat :| OccursAt(needle, s, i);
      assert (s + a)[i..] == s[i..] + a;
      assert OccursAt(needle, s + a, i);
    }
    if Occurs(needle, s + a) {
      var i: nat :| OccursAt(needle, s + a, i);
      var end := i + |needle|;
      assert (s + a)[end - 1] == (s + a)[i..][|needle| - 1] == ':';
      assert end <= |s| by {
        assert forall k :: |s| <= k < |s + a| ==> (s + a)[k] == a[k - |s|];
      }
      assert forall k :: 0 <= k < |needle| ==> s[i..][k] == (s + a)[i..][k];
      assert OccursAt(needle, s, i);
    }
  }

  lemma NeedleIsPrefix(id: string, p: string, tail: string)
    requires ':' !in id && ':' !in p
    ensures Needle(id) <= ":" + (p + (":" + tail)) <==> id == p
  {
    var s := ":" + (p + (":" + tail));
    if id == p {
      assert s == Needle(id) + tail;
    }
    if Needle(id) <= s {
      var rest := s[|Needle(id)|..];
      assert s == Needle(id) + rest;
      assert s[1..] == p + (":" + tail);
      assert s[1..] == id + (":" + rest);
      FirstColon(id, rest, p, tail);
    }
  }

  lemma ResetMatchesIff(a: Algorithm, p: string, tail: string, id: string)
    requires PlainId(p) && PlainId(id)
    ensures Glob(ResetPattern(id), ClientKey(a, p, tail)) <==> id == p || Occurs(Needle(id), ":" + tail)
  {
    var key := ClientKey(a, p, tail);
    var rest := a.Name() + (":" + (p + (":" + tail)));
    assert ':' !in id && ':' !in p && '*' !in Needle(id) by {
      assert ':' in ":*?[\\" && '*' in ":*?[\\";
    }
    assert key[3..] == rest && "rl:" <= key;
    GlobLiteral("rl:", "*" + (Needle(id) + "*"), key);
    GlobContains(Needle(id), rest);
    OccursAfterPlain(Needle(id), a.Name(), ":" + (p + (":" + tail)));
    OccursCons(Needle(id), ":" + (p + (":" + tail)));
    assert (":" + (p + (":" + tail)))[1..] == p + (":" + tail);
    OccursAfterPlain(Needle(id), p, ":" + tail);
    NeedleIsPrefix(id, p, tail);
  }

  /** A reset of policy `id` deletes a key exactly when the key is its own, or its id appears in the client's. */
  lemma ResetDeletesIff(a: Algorithm, p: string, client: string, id: string, key: string)
    requires PlainId(p) && PlainId(id) && Owns(a, p, client, key)
    ensures Glob(ResetPattern(id), key) <==> id == p || !Spared(a, client, id)
  {
    if a.Windowed() {
      var w :| key == WindowKey(a, p, client, w);
      ResetMatchesIff(a, p, client + (":" + Itoa(w)), id);
      ItoaPlain(w);
      assert ":" + (client + (":" + Itoa(w))) == (":" + client + ":") + Itoa(w);
      OccursBeforePlain(Needle(id), ":" + client + ":", Itoa(w));
    } else {
      ResetMatchesIff(a, p, client, id);
      assert ":" + client + "" == ":" + client;
    }
  }

  /** Client ids without a colon, and different from the policy's id, are spared. */
  lemma PlainClientsSpared(a: Algorithm, client: string, id: string)
    requires ':' !in client && ':' !in id && client != id
    ensures Spared(a, client, id)
  {
    var s := ":" + client + if a.Windowed() then ":" else "";
    forall i: nat ensures !OccursAt(Needle(id), s, i) {
      if OccursAt(Needle(id), s, i) {
        assert s[i] == s[i..][0] == Needle(id)[0] == ':';
        assert s[i + |id| + 1] == s[i..][|id| + 1] == ':';
        assert forall k :: 0 < k <= |client| ==> s[k] == client[k - 1] != ':';
        assert i == 0 && |id| == |client|;
        assert forall k :: 0 <= k < |id| ==> id[k] == s[i..][k + 1] == client[k];
      }
    }
  }

  /** A client id that spells out another policy's id between colons loses its state to that policy's reset. */
  lemma ResetReachesAcrossPolicies()
    ensures PlainId("p1") && PlainId("p2")
    ensures Glob(ResetPattern("p2"), ClientKey(TokenBucket, "p1", "x:p2:y"))
  {
    assert forall c :: c in "p1" || c in "p2" ==> c == 'p' || c == '1' || c == '2';
    var s := ":" + "x:p2:y";
    assert s[2..] == Needle("p2") + "y";
    assert OccursAt(Needle("p2"), s, 2);
    ResetMatchesIff(TokenBucket, "p1", "x:p2:y", "p2");
  }
}
