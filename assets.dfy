/**
 * The asset map of a conversion request, and the rules by which the asset builder
 * fills it: single insertion (AddItem), insertion of a whole collection (AddItems),
 * and the LINQ `ToDictionary` conversion the typed collection overloads go through.
 */
module Assets {
  import opened Wrappers
  import opened AssetNames

  /** The content of one asset: exactly one variant; a stream is an opaque handle. */
  datatype ContentItem = Text(text: string) | Bytes(bytes: seq<bv8>) | Stream(handle: nat)

  /** The exceptions the builder raises. */
  datatype Failure =
    | NameOutOfRange               // ArgumentOutOfRangeException for `name`
    | NullArgument(param: string)  // ArgumentNullException naming the null parameter
    | DuplicateKey(key: string)    // ArgumentException from a dictionary insert of a present key

  /** One asset: its file name and its content. */
  type Entry = (string, ContentItem)

  /** The outcome of a collection insertion: the entries it leaves behind, and the exception it stopped at, if any. */
  datatype Applied = Applied(entries: seq<Entry>, failure: Option<Failure>)

  /** The keys of a key/value sequence, in order. */
  function KeysOf<V>(kvs: seq<(string, V)>): (ks: seq<string>)
    ensures |ks| == |kvs| && forall i :: 0 <= i < |kvs| ==> ks[i] == kvs[i].0
  {
    seq(|kvs|, i requires 0 <= i < |kvs| => kvs[i].0)
  }

  /** No key occurs twice. */
  predicate DistinctKeys<V>(kvs: seq<(string, V)>) {
    forall i, j :: 0 <= i < j < |kvs| ==> kvs[i].0 != kvs[j].0
  }

  /** Every key is a name the builder accepts. */
  predicate AllNamesValid(entries: seq<Entry>) {
    forall i :: 0 <= i < |entries| ==> ValidName(Some(entries[i].0))
  }

  /** The dictionary view of the entries: name to content, a later entry shadowing an earlier one. */
  function AsMap(entries: seq<Entry>): (m: map<string, ContentItem>)
    ensures m.Keys == set i | 0 <= i < |entries| :: entries[i].0
  {
    if entries == [] then map[]
    else
      var init := entries[..|entries| - 1];
      var last := entries[|entries| - 1];
      var m := AsMap(init);
      assert forall i :: 0 <= i < |init| ==> init[i] == entries[i];
      m[last.0 := last.1]
  }

  /**
   * AddItem on the asset map: the name is checked first, then the value for null, and
   * only then is the entry added; an insert of a present key fails as Dictionary.Add does.
   */
  function Insert(entries: seq<Entry>, name: Option<string>, value: Option<ContentItem>): (r: Result<seq<Entry>, Failure>)
    ensures r.Success? <==> ValidName(name) && value.Some? && name.value !in AsMap(entries)
    ensures r.Success? ==> entries <= r.value && AsMap(r.value) == AsMap(entries)[name.value := value.value]
    ensures r.Failure? && ValidName(name) ==> r.error != NameOutOfRange
  {
    if !ValidName(name) then Failure(NameOutOfRange)
    else if value.None? then Failure(NullArgument("value"))
    else if name.value in KeysOf(entries) then Failure(DuplicateKey(name.value))
    else Success(entries + [(name.value, value.value)])
  }

  /**
   * AddItems(Dictionary<string, ContentItem>) on the asset map once the null check
   * has passed: AddItem on each entry in order, stopping at the first exception and
   * keeping what was inserted before it.
   */
  function InsertAll(entries: seq<Entry>, items: seq<(string, Option<ContentItem>)>): (a: Applied)
    ensures entries <= a.entries
    ensures a.failure.None? ==> |a.entries| == |entries| + |items|
    ensures a.failure.None? ==> forall i :: 0 <= i < |items| ==>
      ValidName(Some(items[i].0)) && items[i].1.Some? && a.entries[|entries| + i] == (items[i].0, items[i].1.value)
    decreases |items|
  {
    if items == [] then Applied(entries, None)
    else
      match Insert(entries, Some(items[0].0), items[0].1)
      case Failure(f) => Applied(entries, Some(f))
      case Success(next) =>
        var a := InsertAll(next, items[1..]);
        assert forall i :: 1 <= i < |items| ==> items[i] == items[1..][i - 1];
        a
  }

  /**
   * Enumerable.ToDictionary(key, f): the pairs in order with `f` applied to each value,
   * or ArgumentException at the first key that repeats an earlier one.
   */
  function ToDictionary<V, W>(kvs: seq<(string, V)>, f: V -> W): (r: Result<seq<(string, W)>, Failure>)
    ensures r.Success? <==> DistinctKeys(kvs)
    ensures r.Success? ==> |r.value| == |kvs| && forall i :: 0 <= i < |kvs| ==> r.value[i] == (kvs[i].0, f(kvs[i].1))
  {
    if kvs == [] then Success([])
    else
      var init := kvs[..|kvs| - 1];
      var last := kvs[|kvs| - 1];
      assert forall i :: 0 <= i < |init| ==> init[i] == kvs[i];
      match ToDictionary(init, f)
      case Failure(e) => Failure(e)
      case Success(done) =>
        if last.0 in KeysOf(init) then Failure(DuplicateKey(last.0))
        else Success(done + [(last.0, f(last.1))])
  }

  /**
   * A typed AddItems overload on the asset map: a null collection fails with a null
   * argument named `nullParam`; otherwise the collection is converted with
   * ToDictionary (every value wrapped by `wrap`) before anything is inserted, and
   * the converted entries are inserted as InsertAll does.
   */
  function InsertCollection<V>(entries: seq<Entry>, assets: Option<seq<(string, V)>>,
                               wrap: V -> Option<ContentItem>, nullParam: string): (a: Applied)
    ensures entries <= a.entries
    ensures a.failure.None? ==> assets.Some? && DistinctKeys(assets.value) && |a.entries| == |entries| + |assets.value|
  {
    match assets
    case None => Applied(entries, Some(NullArgument(nullParam)))
    case Some(kvs) =>
      match ToDictionary(kvs, wrap)
      case Failure(e) => Applied(entries, Some(e))
      case Success(items) => InsertAll(entries, items)
  }

  // ---------------------------------------------------------------------------
  // Single insertion

  /** An invalid name is reported as such whatever the value, even a null one: the name is checked first. */
  lemma InsertChecksNameFirst(entries: seq<Entry>, name: Option<string>, value: Option<ContentItem>)
    requires !ValidName(name)
    ensures Insert(entries, name, value) == Failure(NameOutOfRange)
  {
  }

  /** A valid name with a null value fails with the null-argument exception for `value`. */
  lemma InsertRejectsNull(entries: seq<Entry>, name: string)
    requires ValidName(Some(name))
    ensures Insert(entries, Some(name), None) == Failure(NullArgument("value"))
  {
  }

  /**
   * A valid, new name with a value: the entry is appended after the existing ones,
   * and the map gains exactly `name ↦ value`.
   */
  lemma InsertAdds(entries: seq<Entry>, name: string, value: ContentItem)
    requires ValidName(Some(name)) && name !in AsMap(entries)
    ensures Insert(entries, Some(name), Some(value)) == Success(entries + [(name, value)])
    ensures AsMap(entries + [(name, value)]) == AsMap(entries)[name := value]
  {
  }

  /** A name already in the map is refused, and the map is left as it was. */
  lemma InsertRejectsDuplicate(entries: seq<Entry>, name: string, value: ContentItem)
    requires ValidName(Some(name)) && name in AsMap(entries)
    ensures Insert(entries, Some(name), Some(value)) == Failure(DuplicateKey(name))
  {
  }

  /** Insertion keeps the map's invariants: keys distinct, every key a valid asset name. */
  lemma InsertKeepsInvariant(entries: seq<Entry>, name: Option<string>, value: Option<ContentItem>)
    requires DistinctKeys(entries) && AllNamesValid(entries)
    requires Insert(entries, name, value).Success?
    ensures DistinctKeys(Insert(entries, name, value).value)
    ensures AllNamesValid(Insert(entries, name, value).value)
  {
  }

  // ---------------------------------------------------------------------------
  // Collection insertion

  /** Inserting one more entry after a collection that went through: the fold takes one step. */
  lemma {:induction false} InsertAllSnoc(entries: seq<Entry>, items: seq<(string, Option<ContentItem>)>,
                                         item: (string, Option<ContentItem>))
    requires InsertAll(entries, items).failure.None?
    ensures InsertAll(entries, items + [item]) ==
      match Insert(InsertAll(entries, items).entries, Some(item.0), item.1)
      case Failure(f) => Applied(InsertAll(entries, items).entries, Some(f))
      case Success(next) => Applied(next, None)
    decreases |items|
  {
    if items != [] {
      assert (items + [item])[1..] == items[1..] + [item];
      var next := Insert(entries, Some(items[0].0), items[0].1).value;
      InsertAllSnoc(next, items[1..], item);
    }
  }

  /**
   * No rollback: when entry k is the first to fail, the entries before it stay
   * inserted, the ones after it are never attempted, and its exception is reported.
   */
  lemma {:induction false} InsertAllStopsAt(entries: seq<Entry>, items: seq<(string, Option<ContentItem>)>, k: nat)
    requires k < |items|
    requires InsertAll(entries, items[..k]).failure.None?
    requires Insert(InsertAll(entries, items[..k]).entries, Some(items[k].0), items[k].1).Failure?
    ensures InsertAll(entries, items) ==
      Applied(InsertAll(entries, items[..k]).entries,
              Some(Insert(InsertAll(entries, items[..k]).entries, Some(items[k].0), items[k].1).error))
    decreases k
  {
    if k > 0 {
      var next := Insert(entries, Some(items[0].0), items[0].1).value;
      assert items[..k][1..] == items[1..][..k - 1];
      InsertAllStopsAt(next, items[1..], k - 1);
    }
  }

  /**
   * A completed fold had items with distinct keys, none of them already in the map:
   * together with InsertAll's contract, everything InsertAllSucceeds asks for.
   */
  lemma {:induction false} InsertAllCompletesOnlyIf(entries: seq<Entry>, items: seq<(string, Option<ContentItem>)>)
    requires InsertAll(entries, items).failure.None?
    ensures DistinctKeys(items) && forall i :: 0 <= i < |items| ==> items[i].0 !in KeysOf(entries)
    decreases |items|
  {
    if items != [] {
      var next := entries + [(items[0].0, items[0].1.value)];
      assert Insert(entries, Some(items[0].0), items[0].1) == Success(next);
      InsertAllCompletesOnlyIf(next, items[1..]);
      assert KeysOf(next) == KeysOf(entries) + [items[0].0];
      forall i | 1 <= i < |items| ensures items[i].0 != items[0].0 && items[i].0 !in KeysOf(entries) {
        assert items[i] == items[1..][i - 1];
      }
    }
  }

  /**
   * The converse of InsertAll's contract: a collection of valid names with values,
   * whose keys are distinct and new to the map, goes through completely. With that
   * contract and InsertAllCompletesOnlyIf, the fold completes exactly when its items
   * are of this kind.
   */
  lemma {:induction false} InsertAllSucceeds(entries: seq<Entry>, items: seq<(string, Option<ContentItem>)>)
    requires forall i :: 0 <= i < |items| ==> ValidName(Some(items[i].0)) && items[i].1.Some?
    requires DistinctKeys(items) && forall i :: 0 <= i < |items| ==> items[i].0 !in KeysOf(entries)
    ensures InsertAll(entries, items).failure.None?
    decreases |items|
  {
    if items != [] {
      var next := entries + [(items[0].0, items[0].1.value)];
      assert Insert(entries, Some(items[0].0), items[0].1) == Success(next);
      forall i | 0 <= i < |items| - 1 ensures items[1..][i].0 !in KeysOf(next) {
        assert items[1..][i] == items[i + 1];
        assert KeysOf(next) == KeysOf(entries) + [items[0].0];
      }
      InsertAllSucceeds(next, items[1..]);
    }
  }

  /** An empty collection is a no-op. */
  lemma InsertAllEmpty(entries: seq<Entry>)
    ensures InsertAll(entries, []) == Applied(entries, None)
  {
  }

  /** Collection insertion keeps the map's invariants, whether it completes or stops early. */
  lemma {:induction false} InsertAllKeepsInvariant(entries: seq<Entry>, items: seq<(string, Option<ContentItem>)>)
    requires DistinctKeys(entries) && AllNamesValid(entries)
    ensures DistinctKeys(InsertAll(entries, items).entries)
    ensures AllNamesValid(InsertAll(entries, items).entries)
    decreases |items|
  {
    if items != [] {
      var r := Insert(entries, Some(items[0].0), items[0].1);
      if r.Success? {
        InsertKeepsInvariant(entries, Some(items[0].0), items[0].1);
        InsertAllKeepsInvariant(r.value, items[1..]);
      }
    }
  }

  /** A null collection, in any overload, fails before any insertion. */
  lemma NullCollectionChangesNothing<V>(entries: seq<Entry>, wrap: V -> Option<ContentItem>, nullParam: string)
    ensures InsertCollection(entries, None, wrap, nullParam) == Applied(entries, Some(NullArgument(nullParam)))
  {
  }

  /**
   * A typed collection whose keys are distinct behaves exactly as the ContentItem
   * form applied to its wrapped values; one with a repeated key fails before any
   * insertion.
   */
  lemma {:induction false} InsertCollectionIsWrappedFold<V>(entries: seq<Entry>, kvs: seq<(string, V)>,
                                                            wrap: V -> Option<ContentItem>, nullParam: string)
    ensures DistinctKeys(kvs) ==>
      InsertCollection(entries, Some(kvs), wrap, nullParam) ==
      InsertAll(entries, seq(|kvs|, i requires 0 <= i < |kvs| => (kvs[i].0, wrap(kvs[i].1))))
    ensures !DistinctKeys(kvs) ==>
      InsertCollection(entries, Some(kvs), wrap, nullParam).entries == entries &&
      InsertCollection(entries, Some(kvs), wrap, nullParam).failure.Some?
  {
    var r := ToDictionary(kvs, wrap);
    if r.Success? {
      assert r.value == seq(|kvs|, i requires 0 <= i < |kvs| => (kvs[i].0, wrap(kvs[i].1)));
    } else {
      var e := r.error;
      assert InsertCollection(entries, Some(kvs), wrap, nullParam) == Applied(entries, Some(e));
    }
  }

  // ---------------------------------------------------------------------------
  // State

  /**
   * The request's AssetDictionary. Its entries keep insertion order, the order in
   * which the request's multipart body lists the assets.
   */
  class AssetDictionary {
    var entries: seq<Entry>

    /** An empty dictionary. */
    constructor()
      ensures entries == []
    {
      entries := [];
    }

    /** Dictionary.Add: appends the entry, or fails when the key is present. */
    method Add(key: string, value: ContentItem) returns (r: Result<(), Failure>)
      modifies this
      ensures key in KeysOf(old(entries)) ==> r == Failure(DuplicateKey(key)) && entries == old(entries)
      ensures key !in KeysOf(old(entries)) ==> r == Success(()) && entries == old(entries) + [(key, value)]
    {
      if key in KeysOf(entries) {
        r := Failure(DuplicateKey(key));
      } else {
        entries := entries + [(key, value)];
        r := Success(());
      }
    }
  }

  /** A conversion request, reduced to the part the asset builder touches: its asset map, which may be null. */
  class Request {
    var assets: AssetDictionary?

    constructor(assets: AssetDictionary?)
      ensures this.assets == assets
    {
      this.assets := assets;
    }
  }
}
