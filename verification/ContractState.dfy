/**
 One store for all contracts: a contract's slots live under composite keys, and its state
 is what the store holds under its name.
 */
module ContractState {
  import opened Deltas

  /** Some slot of the one contract has the composite key of a slot of the other. */
  ghost predicate Share(c: string, c': string) {
    exists a, b :: CompositeKey(c, a) == CompositeKey(c', b)
  }

  lemma {:induction false} Begins(c: string, a: string, c': string, b: string)
    requires c + a == c' + b && |c| <= |c'|
    ensures c <= c' && a == c'[|c|..] + b
  {
    var whole := c + a;
    assert whole[..|c|] == c && whole[..|c'|] == c';
    assert whole[|c|..] == a && (c' + b)[|c|..] == c'[|c|..] + b;
  }

  /** Two contracts share a composite key exactly if the name of one, with the separator, begins that of the other. */
  lemma ShareIff(c: string, c': string)
    ensures Share(c, c') <==> c + ":" <= c' + ":" || c' + ":" <= c + ":"
  {
    var n, n' := c + ":", c' + ":";
    if a, b :| CompositeKey(c, a) == CompositeKey(c', b) {
      assert n + a == CompositeKey(c, a) && n' + b == CompositeKey(c', b);
      if |n| <= |n'| {
        Begins(n, a, n', b);
      } else {
        Begins(n', b, n, a);
      }
    }
    if n <= n' {
      assert CompositeKey(c, n'[|n|..]) == n + n'[|n|..] == n' == CompositeKey(c', "");
    }
    if n' <= n {
      assert CompositeKey(c', n[|n'|..]) == n' + n[|n'|..] == n == CompositeKey(c, "");
    }
  }

  /** Names without the separator never share one. */
  lemma PlainNamesApart(c: string, c': string)
    requires ':' !in c && ':' !in c'
    ensures Share(c, c') <==> c == c'
  {
    ShareIff(c, c');
    if c + ":" <= c' + ":" {
      BeginsIsSame(c, c');
    }
    if c' + ":" <= c + ":" {
      BeginsIsSame(c', c);
    }
  }

  lemma BeginsIsSame(c: string, c': string)
    requires ':' !in c' && c + ":" <= c' + ":"
    ensures c == c'
  {
    var n, n' := c + ":", c' + ":";
    assert n[|c|] == ':' && n'[|c|] == ':';
    assert |c| == |c'| && n == n';
    assert c == n[..|c|] && c' == n'[..|c|];
  }

  /** `v` is the contract's state within the store. */
  ghost predicate IsView(s: Store, contract: string, v: Store) {
    forall k :: (k in v <==> CompositeKey(contract, k) in s) && (k in v ==> v[k] == s[CompositeKey(contract, k)])
  }

  /** `filterContractState`: every slot of the contract, under its own key. */
  method FilterContractState(committed: Store, contract: string) returns (result: Store)
    ensures IsView(committed, contract, result)
  {
    result := map[];
    var prefix := contract + ":";
    var todo := committed.Keys;
    while todo != {}
      invariant todo <= committed.Keys
      invariant forall k :: k in result <==> CompositeKey(contract, k) in committed && CompositeKey(contract, k) !in todo
      invariant forall k :: k in result ==> result[k] == committed[CompositeKey(contract, k)]
      decreases todo
    {
      var composite :| composite in todo;
      if prefix <= composite {
        var storageKey := composite[|prefix|..];
        assert composite == prefix + storageKey == CompositeKey(contract, storageKey);
        result := result[storageKey := committed[composite]];
        OnlyOne(contract, storageKey);
      } else {
        NotItsKey(contract, composite);
      }
      todo := todo - {composite};
    }
  }

  lemma OnlyOne(contract: string, k: Key)
    ensures forall k' :: CompositeKey(contract, k') == CompositeKey(contract, k) ==> k' == k
  {
    forall k' | CompositeKey(contract, k') == CompositeKey(contract, k) ensures k' == k {
      CompositeInjective(contract, k', k);
    }
  }

  lemma NotItsKey(contract: string, composite: Key)
    requires !(contract + ":" <= composite)
    ensures forall k :: CompositeKey(contract, k) != composite
  {
    forall k ensures CompositeKey(contract, k) != composite {
      assert contract + ":" <= CompositeKey(contract, k);
    }
  }

  lemma ScopedIs(contract: string, deltas: map<Key, int>, k: Key)
    ensures CompositeKey(contract, k) in Scoped(contract, deltas) <==> k in deltas
    ensures k in deltas ==> Scoped(contract, deltas)[CompositeKey(contract, k)] == deltas[k]
  {
    OnlyOne(contract, k);
  }

  lemma AppliedAt(s: Store, deltas: map<Key, int>, k: Key)
    ensures k in Applied(s, deltas) <==> k in s || k in deltas
    ensures k in deltas ==> Applied(s, deltas)[k] == ToBytes(Bumped(FromBytes(Word(s, k)), deltas[k]))
    ensures k in s && k !in deltas ==> Applied(s, deltas)[k] == s[k]
  {
    hide FromBytes, ToBytes, Bumped;
  }

  /** An update of a contract adds its deltas to the contract's state. */
  lemma ViewOfUpdate(s: Store, contract: string, deltas: map<Key, int>, v: Store)
    requires IsView(s, contract, v)
    ensures IsView(Applied(s, Scoped(contract, deltas)), contract, Applied(v, deltas))
  {
    hide FromBytes, ToBytes, Bumped, CompositeKey, Applied, Scoped;
    var s', v' := Applied(s, Scoped(contract, deltas)), Applied(v, deltas);
    forall k ensures (k in v' <==> CompositeKey(contract, k) in s') && (k in v' ==> v'[k] == s'[CompositeKey(contract, k)]) {
      assert k in v <==> CompositeKey(contract, k) in s;
      ScopedIs(contract, deltas, k);
      AppliedAt(v, deltas, k);
      AppliedAt(s, Scoped(contract, deltas), CompositeKey(contract, k));
    }
  }

  /** It leaves the state of a contract it shares no key with. */
  lemma ViewOfOther(s: Store, contract: string, deltas: map<Key, int>, other: string, v: Store)
    requires IsView(s, other, v) && !Share(contract, other)
    ensures IsView(Applied(s, Scoped(contract, deltas)), other, v)
  {
    hide FromBytes, ToBytes, Bumped, CompositeKey;
    forall k ensures CompositeKey(other, k) !in Scoped(contract, deltas) {
      assert forall a :: CompositeKey(contract, a) != CompositeKey(other, k);
    }
  }
}
