/**
  The directory-scoped key/value store of `src/projector.rs`.

  `Data.projector` maps a directory to its own flat key/value scope. Every
  query is answered for the working directory `pwd` by walking its ancestor
  chain: a key defined on a nearer directory wins over the same key on a
  farther ancestor. Mutations touch the scope of `pwd` itself and nothing else.
 */
module Projectors {
  import opened Options
  import opened Paths

  /** The key/value pairs attached to exactly one directory. */
  type Scope = map<string, string>

  /** The persisted store: directory → its own scope. */
  datatype Data = Data(projector: map<Path, Scope>)

  /** The store together with the working directory every operation is resolved against. */
  datatype Projector = Projector(pwd: Path, data: Data)

  /** `default_data`: the store with no scope at all. */
  function DefaultData(): (d: Data)
    ensures d.projector == map[]
  {
    Data(map[])
  }

  /** The scope stored exactly at `p`, or the empty scope when `p` has none. */
  function ScopeAt(data: Data, p: Path): Scope {
    if p in data.projector then data.projector[p] else map[]
  }

  /** Whether the scope stored exactly at `p` defines `key`. */
  predicate Defines(data: Data, p: Path, key: string) {
    key in ScopeAt(data, p)
  }

  /** `chain[i]` defines `key` and no scope before it on `chain` does. */
  ghost predicate NearestDefining(data: Data, chain: seq<Path>, key: string, i: int) {
    && 0 <= i < |chain|
    && Defines(data, chain[i], key)
    && forall j :: 0 <= j < i ==> !Defines(data, chain[j], key)
  }

  /**
    Closest-scope-wins lookup along `chain`: the value of `key` in the first
    scope of `chain` that defines it, `None` when no scope on it does.
   */
  function FirstDefined(data: Data, chain: seq<Path>, key: string): (r: Option<string>)
    ensures r.None? <==> forall i :: 0 <= i < |chain| ==> !Defines(data, chain[i], key)
    ensures forall i :: NearestDefining(data, chain, key, i) ==> r == Some(ScopeAt(data, chain[i])[key])
  {
    if |chain| == 0 then None
    else if Defines(data, chain[0], key) then Some(ScopeAt(data, chain[0])[key])
    else
      var r := FirstDefined(data, chain[1..], key);
      assert forall i :: NearestDefining(data, chain, key, i) ==> NearestDefining(data, chain[1..], key, i - 1);
      r
  }

  /**
    The scopes of `chain` applied from its last element (the root) back to its
    first, each one overriding the keys the farther ones set.
   */
  function MergeRootInward(data: Data, chain: seq<Path>): Scope {
    if |chain| == 0 then map[]
    else MergeRootInward(data, chain[1..]) + ScopeAt(data, chain[0])
  }

  /** Merging from the root inward gives, key by key, the closest-scope-wins answer. */
  lemma {:induction false} MergeAgreesWithFirstDefined(data: Data, chain: seq<Path>, key: string)
    ensures Get(MergeRootInward(data, chain), key) == FirstDefined(data, chain, key)
  {
    if |chain| > 0 {
      MergeAgreesWithFirstDefined(data, chain[1..], key);
    }
  }

  /** The value of `key` visible from `pr.pwd`. */
  function Resolve(pr: Projector, key: string): Option<string> {
    FirstDefined(pr.data, Ancestors(pr.pwd), key)
  }

  /** Every key/value pair visible from `pr.pwd`, nearer scopes overriding farther ones. */
  function EffectiveView(pr: Projector): Scope {
    MergeRootInward(pr.data, Ancestors(pr.pwd))
  }

  /**
    `get_value`: walk outward from `pwd`, stopping at the first directory
    whose scope holds `key`.
   */
  method GetValue(pr: Projector, key: string) returns (out: Option<string>)
    ensures out == Resolve(pr, key)
    ensures out.None? <==> forall i :: 0 <= i < |Ancestors(pr.pwd)| ==> !Defines(pr.data, Ancestors(pr.pwd)[i], key)
  {
    var curr: Option<Path> := Some(pr.pwd);
    out := None;
    while curr.Some?
      invariant curr.Some? ==> out == None && FirstDefined(pr.data, Ancestors(curr.value), key) == Resolve(pr, key)
      invariant curr.None? ==> out == Resolve(pr, key)
      decreases if curr.Some? then |curr.value| + 1 else 0
    {
      var p := curr.value;
      if p in pr.data.projector {
        var dir := pr.data.projector[p];
        if key in dir {
          out := Some(dir[key]);
          break;
        }
      }
      curr := Parent(p);
      match curr
      case None =>
      case Some(q) =>
        assert Ancestors(p) == [p] + Ancestors(q);
        assert Ancestors(p)[1..] == Ancestors(q);
    }
  }

  /**
    `get_all_value`: collect the ancestor chain, then extend the result with
    each scope from the root inward.
   */
  method GetAllValue(pr: Projector) returns (out: Scope)
    ensures out == EffectiveView(pr)
    ensures forall k :: Get(out, k) == Resolve(pr, k)
  {
    var paths := WalkAncestors(pr.pwd);
    out := map[];
    var i := |paths|;
    while i > 0
      invariant 0 <= i <= |paths|
      invariant out == MergeRootInward(pr.data, paths[i..])
    {
      i := i - 1;
      MergeStep(pr.data, paths, i);
      if paths[i] in pr.data.projector {
        out := out + pr.data.projector[paths[i]];
      } else {
        assert ScopeAt(pr.data, paths[i]) == map[];
        assert out + map[] == out;
      }
    }
    assert paths[0..] == paths;
    forall k {
      MergeAgreesWithFirstDefined(pr.data, paths, k);
    }
  }

  /** One step of the root-inward merge: the suffix from `i` is the suffix after it, overridden by `chain[i]`. */
  lemma MergeStep(data: Data, chain: seq<Path>, i: int)
    requires 0 <= i < |chain|
    ensures MergeRootInward(data, chain[i..]) == MergeRootInward(data, chain[i + 1..]) + ScopeAt(data, chain[i])
  {
    assert chain[i..][1..] == chain[i + 1..];
  }

  /**
    `set_value`: insert `key` → `value` into the scope of `pwd`, creating the
    scope when `pwd` has none yet.
   */
  function SetValue(pr: Projector, key: string, value: string): (r: Projector)
    ensures r.pwd == pr.pwd
    ensures r.data.projector.Keys == pr.data.projector.Keys + {pr.pwd}
    ensures Get(r.data.projector[pr.pwd], key) == Some(value)
    ensures forall k :: k != key ==> Get(ScopeAt(r.data, pr.pwd), k) == Get(ScopeAt(pr.data, pr.pwd), k)
    ensures forall p :: p != pr.pwd && p in pr.data.projector ==> r.data.projector[p] == pr.data.projector[p]
  {
    var scope := ScopeAt(pr.data, pr.pwd);
    Projector(pr.pwd, Data(pr.data.projector[pr.pwd := scope[key := value]]))
  }

  /**
    `remove_value`: delete `key` from the scope of `pwd`. Nothing happens when
    `pwd` has no scope, and a scope left empty stays in the store.
   */
  function RemoveValue(pr: Projector, key: string): (r: Projector)
    ensures r.pwd == pr.pwd
    ensures r.data.projector.Keys == pr.data.projector.Keys
    ensures pr.pwd !in pr.data.projector ==> r == pr
    ensures !Defines(r.data, pr.pwd, key)
    ensures forall k :: k != key ==> Get(ScopeAt(r.data, pr.pwd), k) == Get(ScopeAt(pr.data, pr.pwd), k)
    ensures forall p :: p != pr.pwd && p in pr.data.projector ==> r.data.projector[p] == pr.data.projector[p]
  {
    if pr.pwd in pr.data.projector then
      Projector(pr.pwd, Data(pr.data.projector[pr.pwd := pr.data.projector[pr.pwd] - {key}]))
    else
      pr
  }

  /**
    What the backing file looks like when the store is loaded. `NoMetadata` is
    any failure of the metadata query: a missing file, a permission error, a
    broken link.
   */
  datatype ConfigFile = NoMetadata | Unreadable | Contents(text: string)

  /** The text used in place of a file that exists but cannot be read. */
  const FallbackContents: string := "{\"projector\":{}"

  /**
    `from_config`: load the store for `pwd`. `parse` stands for the JSON
    deserializer; whatever it rejects, like a file without metadata, yields the empty store.
   */
  function FromConfig(pwd: Path, file: ConfigFile, parse: string -> Option<Data>): (r: Projector)
    ensures r.pwd == pwd
    ensures file.NoMetadata? ==> r.data == DefaultData()
    ensures file.Contents? && parse(file.text).None? ==> r.data == DefaultData()
    ensures file.Contents? && parse(file.text).Some? ==> r.data == parse(file.text).value
    ensures file.Unreadable? ==> r.data == DefaultData() || Some(r.data) == parse(FallbackContents)
  {
    match file
    case NoMetadata => Projector(pwd, DefaultData())
    case Unreadable =>
      var parsed := parse(FallbackContents);
      Projector(pwd, if parsed.Some? then parsed.value else DefaultData())
    case Contents(text) =>
      var parsed := parse(text);
      Projector(pwd, if parsed.Some? then parsed.value else DefaultData())
  }
}
