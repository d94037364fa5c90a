/**
  Properties of the projector store: the merged view agrees with per-key
  lookup, lookups read only the ancestor chain, and the effect of set and
  remove on what `pwd` sees. The last lemmas replay the module's unit tests.
 */
module ProjectorProperties {
  import opened Options
  import opened Paths
  import opened Projectors

  /** `get_all_value` and `get_value` agree on every key, present or absent. */
  lemma EffectiveViewAgreesWithResolve(pr: Projector)
    ensures forall k :: Get(EffectiveView(pr), k) == Resolve(pr, k)
  {
    forall k {
      MergeAgreesWithFirstDefined(pr.data, Ancestors(pr.pwd), k);
    }
  }

  /** The merged view holds exactly the keys some scope on the ancestor chain of `pwd` defines. */
  lemma EffectiveViewKeys(pr: Projector)
    ensures forall k :: k in EffectiveView(pr) <==> exists i :: 0 <= i < |Ancestors(pr.pwd)| && Defines(pr.data, Ancestors(pr.pwd)[i], k)
  {
    var c := Ancestors(pr.pwd);
    forall k
      ensures k in EffectiveView(pr) <==> exists i :: 0 <= i < |c| && Defines(pr.data, c[i], k)
    {
      MergeAgreesWithFirstDefined(pr.data, c, k);
      assert k in EffectiveView(pr) <==> FirstDefined(pr.data, c, k).Some?;
    }
    assert c == Ancestors(pr.pwd);
  }

  /** Two stores that agree on `key` in every scope of `chain` resolve `key` alike along it. */
  lemma {:induction false} FirstDefinedReadsOnlyChain(d1: Data, d2: Data, chain: seq<Path>, key: string)
    requires forall i :: 0 <= i < |chain| ==> Get(ScopeAt(d1, chain[i]), key) == Get(ScopeAt(d2, chain[i]), key)
    ensures FirstDefined(d1, chain, key) == FirstDefined(d2, chain, key)
  {
    if |chain| > 0 {
      assert Get(ScopeAt(d1, chain[0]), key) == Get(ScopeAt(d2, chain[0]), key);
      FirstDefinedReadsOnlyChain(d1, d2, chain[1..], key);
    }
  }

  /** Scopes off the ancestor chain of `pwd` are never consulted. */
  lemma ResolveIgnoresOffChainScopes(pr: Projector, other: Data)
    requires forall i :: 0 <= i < |Ancestors(pr.pwd)| ==> ScopeAt(pr.data, Ancestors(pr.pwd)[i]) == ScopeAt(other, Ancestors(pr.pwd)[i])
    ensures forall k :: Resolve(pr, k) == Resolve(Projector(pr.pwd, other), k)
    ensures EffectiveView(pr) == EffectiveView(Projector(pr.pwd, other))
  {
    var c := Ancestors(pr.pwd);
    var pr' := Projector(pr.pwd, other);
    forall k
      ensures Resolve(pr, k) == Resolve(pr', k)
    {
      FirstDefinedReadsOnlyChain(pr.data, other, c, k);
    }
    EffectiveViewAgreesWithResolve(pr);
    EffectiveViewAgreesWithResolve(pr');
    MapsAgreeingEverywhereAreEqual(EffectiveView(pr), EffectiveView(pr'));
  }

  /** After `set_value(k, v)`, `k` resolves to `v` from `pwd` whatever the ancestors define. */
  lemma SetThenResolve(pr: Projector, key: string, value: string)
    ensures Resolve(SetValue(pr, key, value), key) == Some(value)
    ensures EffectiveView(SetValue(pr, key, value))[key] == value
  {
    var pr' := SetValue(pr, key, value);
    assert Ancestors(pr.pwd)[0] == pr.pwd;
    assert NearestDefining(pr'.data, Ancestors(pr.pwd), key, 0);
    EffectiveViewAgreesWithResolve(pr');
    assert Get(EffectiveView(pr'), key) == Some(value);
  }

  /** `set_value(k, v)` leaves what every other key resolves to unchanged. */
  lemma SetKeepsOtherKeys(pr: Projector, key: string, value: string, other: string)
    requires other != key
    ensures Resolve(SetValue(pr, key, value), other) == Resolve(pr, other)
  {
    var pr' := SetValue(pr, key, value);
    var c := Ancestors(pr.pwd);
    forall i | 0 <= i < |c|
      ensures Get(ScopeAt(pr'.data, c[i]), other) == Get(ScopeAt(pr.data, c[i]), other)
    {
      if c[i] != pr.pwd && c[i] !in pr.data.projector {
        assert c[i] !in pr'.data.projector;
      }
    }
    FirstDefinedReadsOnlyChain(pr'.data, pr.data, c, other);
  }

  /** Setting the same key to the same value twice is the same as setting it once. */
  lemma SetIdempotent(pr: Projector, key: string, value: string)
    ensures SetValue(SetValue(pr, key, value), key, value) == SetValue(pr, key, value)
  {
    var once := SetValue(pr, key, value);
    var scope := ScopeAt(pr.data, pr.pwd)[key := value];
    assert ScopeAt(once.data, pr.pwd) == scope;
    assert scope[key := value] == scope;
    assert once.data.projector[pr.pwd := scope] == once.data.projector;
  }

  /** A second `set_value` of the same key replaces the first: only the last value survives. */
  lemma SetOverwrites(pr: Projector, key: string, v1: string, v2: string)
    ensures SetValue(SetValue(pr, key, v1), key, v2) == SetValue(pr, key, v2)
    ensures Resolve(SetValue(SetValue(pr, key, v1), key, v2), key) == Some(v2)
  {
    var scope := ScopeAt(pr.data, pr.pwd);
    assert scope[key := v1][key := v2] == scope[key := v2];
    SetThenResolve(pr, key, v2);
  }

  /**
    After `remove_value(k)`, `k` resolves from `pwd` exactly as it does from the
    parent of `pwd`: to the nearest strict ancestor that defines it, or to
    nothing at the root.
   */
  lemma RemoveFallsBackToParent(pr: Projector, key: string)
    ensures Resolve(RemoveValue(pr, key), key)
         == match Parent(pr.pwd)
            case None => None
            case Some(q) => Resolve(Projector(q, pr.data), key)
  {
    var pr' := RemoveValue(pr, key);
    var c := Ancestors(pr.pwd);
    assert c[0] == pr.pwd;
    assert !Defines(pr'.data, c[0], key);
    match Parent(pr.pwd)
    case None =>
      assert c == [pr.pwd];
    case Some(q) =>
      assert c == [pr.pwd] + Ancestors(q);
      var rest := c[1..];
      assert rest == Ancestors(q);
      forall i | 0 <= i < |rest|
        ensures Get(ScopeAt(pr'.data, rest[i]), key) == Get(ScopeAt(pr.data, rest[i]), key)
      {
        assert rest[i] == c[i + 1];
        assert |rest[i]| < |pr.pwd|;
      }
      FirstDefinedReadsOnlyChain(pr'.data, pr.data, rest, key);
  }

  /** `remove_value(k)` leaves what every other key resolves to unchanged. */
  lemma RemoveKeepsOtherKeys(pr: Projector, key: string, other: string)
    requires other != key
    ensures Resolve(RemoveValue(pr, key), other) == Resolve(pr, other)
  {
    var pr' := RemoveValue(pr, key);
    var c := Ancestors(pr.pwd);
    forall i | 0 <= i < |c|
      ensures Get(ScopeAt(pr'.data, c[i]), other) == Get(ScopeAt(pr.data, c[i]), other)
    {
    }
    FirstDefinedReadsOnlyChain(pr'.data, pr.data, c, other);
  }

  /** Removing a key twice is the same as removing it once. */
  lemma RemoveIdempotent(pr: Projector, key: string)
    ensures RemoveValue(RemoveValue(pr, key), key) == RemoveValue(pr, key)
  {
    if pr.pwd in pr.data.projector {
      var scope := pr.data.projector[pr.pwd] - {key};
      assert scope - {key} == scope;
      var once := RemoveValue(pr, key);
      assert once.data.projector[pr.pwd := scope] == once.data.projector;
    }
  }

  /**
    Setting a key on a directory without a scope and removing it again leaves
    an empty scope behind: `remove_value` never prunes.
   */
  lemma SetThenRemoveKeepsEmptyScope(pr: Projector, key: string, value: string)
    requires pr.pwd !in pr.data.projector
    ensures RemoveValue(SetValue(pr, key, value), key).data.projector == pr.data.projector[pr.pwd := map[]]
    ensures Resolve(RemoveValue(SetValue(pr, key, value), key), key) == Resolve(pr, key)
  {
    var r := RemoveValue(SetValue(pr, key, value), key);
    assert map[key := value] - {key} == map[];
    assert r.data.projector == pr.data.projector[pr.pwd := map[]];
    var c := Ancestors(pr.pwd);
    forall i | 0 <= i < |c|
      ensures Get(ScopeAt(r.data, c[i]), key) == Get(ScopeAt(pr.data, c[i]), key)
    {
    }
    FirstDefinedReadsOnlyChain(r.data, pr.data, c, key);
  }

  /** The default store resolves nothing from any directory. */
  lemma DefaultDataResolvesNothing(pwd: Path)
    ensures forall k :: Resolve(Projector(pwd, DefaultData()), k) == None
    ensures EffectiveView(Projector(pwd, DefaultData())) == map[]
  {
    var v := EffectiveView(Projector(pwd, DefaultData()));
    EffectiveViewAgreesWithResolve(Projector(pwd, DefaultData()));
    forall k
      ensures k !in v
    {
      assert Get(v, k) == None;
    }
    assert v.Keys == {};
  }

  // The fixture of the module's unit tests: `/` → {foo: bar1, fem: is_great},
  // `/foo` → {foo: bar2}, `/foo/bar` → {foo: bar3}.

  const Root: Path := []
  const Foo: Path := ["foo"]
  const FooBar: Path := ["foo", "bar"]

  function Fixture(): Data {
    Data(map[
      Root := map["foo" := "bar1", "fem" := "is_great"],
      Foo := map["foo" := "bar2"],
      FooBar := map["foo" := "bar3"]
    ])
  }

  lemma FooBarChain()
    ensures Parent(FooBar) == Some(Foo)
    ensures Ancestors(FooBar) == [FooBar, Foo, Root]
  {
    assert FooBar[..1] == Foo;
    assert Parent(FooBar) == Some(Foo);
    assert Parent(Foo) == Some(Root);
    assert Ancestors(Root) == [Root];
    assert Ancestors(Foo) == [Foo, Root];
  }

  /** From `/foo/bar`, `foo` is the nearest `bar3` and `fem` comes from the root. */
  lemma FixtureGetValue()
    ensures Resolve(Projector(FooBar, Fixture()), "foo") == Some("bar3")
    ensures Resolve(Projector(FooBar, Fixture()), "fem") == Some("is_great")
  {
    FooBarChain();
    var c := [FooBar, Foo, Root];
    assert NearestDefining(Fixture(), c, "foo", 0);
    assert NearestDefining(Fixture(), c, "fem", 2);
  }

  /** Setting `foo` and the root-only `fem` on `/foo/bar` overrides both there. */
  lemma FixtureSetValue()
    ensures var pr := SetValue(SetValue(Projector(FooBar, Fixture()), "foo", "baz"), "fem", "is_super_great");
      Resolve(pr, "foo") == Some("baz") && Resolve(pr, "fem") == Some("is_super_great")
  {
    var pr1 := SetValue(Projector(FooBar, Fixture()), "foo", "baz");
    SetThenResolve(Projector(FooBar, Fixture()), "foo", "baz");
    SetKeepsOtherKeys(pr1, "fem", "is_super_great", "foo");
    SetThenResolve(pr1, "fem", "is_super_great");
  }

  lemma FromFooInFixture(data: Data)
    requires Foo in data.projector && data.projector[Foo] == Fixture().projector[Foo]
    requires Root in data.projector && data.projector[Root] == Fixture().projector[Root]
    ensures Resolve(Projector(Foo, data), "foo") == Some("bar2")
    ensures Resolve(Projector(Foo, data), "fem") == Some("is_great")
  {
    FooBarChain();
    assert Ancestors(Foo) == [Foo, Root];
    assert NearestDefining(data, [Foo, Root], "foo", 0);
    assert NearestDefining(data, [Foo, Root], "fem", 1);
  }

  /** Removing `foo` and `fem` on `/foo/bar` falls back to `/foo`'s `bar2` and the root's `is_great`. */
  lemma FixtureRemoveValue()
    ensures var pr := RemoveValue(RemoveValue(Projector(FooBar, Fixture()), "foo"), "fem");
      Resolve(pr, "foo") == Some("bar2") && Resolve(pr, "fem") == Some("is_great")
  {
    FooBarChain();
    var pr0 := Projector(FooBar, Fixture());
    var pr1 := RemoveValue(pr0, "foo");
    var pr2 := RemoveValue(pr1, "fem");
    assert FooBar != Foo && FooBar != Root;
    FromFooInFixture(Fixture());
    FromFooInFixture(pr1.data);
    RemoveFallsBackToParent(pr0, "foo");
    RemoveKeepsOtherKeys(pr1, "fem", "foo");
    RemoveFallsBackToParent(pr1, "fem");
  }
}
