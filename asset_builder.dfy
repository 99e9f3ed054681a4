/**
 * AssetBuilder: the fluent builder that attaches named assets to one request.
 * Every call checks its arguments, mutates the request's asset map in place and
 * hands back the same builder; a thrown exception is a `Failure` result.
 */
module AssetBuilders {
  import opened Wrappers
  import opened Assets

  class AssetBuilder {
    /** The request this builder wraps for its whole lifetime. */
    const request: Request

    /** The asset map exists once the builder is constructed. */
    ghost predicate Valid()
      reads this, request
    {
      request.assets != null
    }

    /** What a call hands back: the builder itself, or the exception it stopped at. */
    function Report(a: Applied): (r: Result<AssetBuilder, Failure>)
      ensures r.Success? <==> a.failure.None?
      ensures r.Success? ==> r.value == this
    {
      if a.failure.None? then Success(this) else Failure(a.failure.value)
    }

    /** Wraps `request`, giving it an empty asset map when it has none and keeping the one it has otherwise. */
    constructor(request: Request)
      modifies request
      ensures this.request == request && Valid()
      ensures old(request.assets) != null ==> request.assets == old(request.assets)
      ensures old(request.assets) == null ==> fresh(request.assets)
      ensures request.assets.entries == if old(request.assets) == null then [] else old(request.assets.entries)
    {
      this.request := request;
      new;
      if request.assets == null {
        request.assets := new AssetDictionary();
      }
    }

    /**
     * AddItem(string, ContentItem): rejects an invalid name, then a null value,
     * then a present key; otherwise appends `name ↦ value` and returns this builder.
     * A failed call leaves the asset map as it was.
     */
    method AddItem(name: Option<string>, value: Option<ContentItem>) returns (r: Result<AssetBuilder, Failure>)
      requires Valid()
      modifies request.assets
      ensures Valid() && request.assets == old(request.assets)
      ensures match Insert(old(request.assets.entries), name, value)
        case Success(next) => r == Success(this) && request.assets.entries == next
        case Failure(f) => r == Failure(f) && request.assets.entries == old(request.assets.entries)
    {
      if !AssetNames.ValidName(name) {
        return Failure(NameOutOfRange);
      }
      if value.None? {
        return Failure(NullArgument("value"));
      }
      var added := request.assets.Add(name.value, value.value);
      if added.Failure? {
        return Failure(added.error);
      }
      return Success(this);
    }

    /** AddItem(string, string): the text wrapped as a ContentItem, then AddItem. */
    method AddTextItem(name: Option<string>, value: string) returns (r: Result<AssetBuilder, Failure>)
      requires Valid()
      modifies request.assets
      ensures Valid() && request.assets == old(request.assets)
      ensures match Insert(old(request.assets.entries), name, Some(Text(value)))
        case Success(next) => r == Success(this) && request.assets.entries == next
        case Failure(f) => r == Failure(f) && request.assets.entries == old(request.assets.entries)
    {
      r := AddItem(name, Some(Text(value)));
    }

    /** AddItem(string, byte[]): the bytes wrapped as a ContentItem, then AddItem. */
    method AddBytesItem(name: Option<string>, value: seq<bv8>) returns (r: Result<AssetBuilder, Failure>)
      requires Valid()
      modifies request.assets
      ensures Valid() && request.assets == old(request.assets)
      ensures match Insert(old(request.assets.entries), name, Some(Bytes(value)))
        case Success(next) => r == Success(this) && request.assets.entries == next
        case Failure(f) => r == Failure(f) && request.assets.entries == old(request.assets.entries)
    {
      r := AddItem(name, Some(Bytes(value)));
    }

    /** AddItem(string, Stream): the stream wrapped as a ContentItem, then AddItem. */
    method AddStreamItem(name: Option<string>, value: nat) returns (r: Result<AssetBuilder, Failure>)
      requires Valid()
      modifies request.assets
      ensures Valid() && request.assets == old(request.assets)
      ensures match Insert(old(request.assets.entries), name, Some(Stream(value)))
        case Success(next) => r == Success(this) && request.assets.entries == next
        case Failure(f) => r == Failure(f) && request.assets.entries == old(request.assets.entries)
    {
      r := AddItem(name, Some(Stream(value)));
    }

    /**
     * AddItems(Dictionary<string, ContentItem>): a null collection fails before any
     * insertion; otherwise AddItem on each entry in order, stopping at the first
     * exception without undoing the entries already added.
     */
    method AddItems(items: Option<seq<(string, Option<ContentItem>)>>) returns (r: Result<AssetBuilder, Failure>)
      requires Valid()
      modifies request.assets
      ensures Valid() && request.assets == old(request.assets)
      ensures items.None? ==>
        r == Failure(NullArgument("items")) && request.assets.entries == old(request.assets.entries)
      ensures items.Some? ==>
        r == Report(InsertAll(old(request.assets.entries), items.value))
        && request.assets.entries == InsertAll(old(request.assets.entries), items.value).entries
    {
      if items.None? {
        return Failure(NullArgument("items"));
      }
      var all := items.value;
      var i := 0;
      while i < |all|
        invariant 0 <= i <= |all| && Valid() && request.assets == old(request.assets)
        invariant InsertAll(old(request.assets.entries), all[..i]) == Applied(request.assets.entries, None)
      {
        InsertAllSnoc(old(request.assets.entries), all[..i], all[i]);
        assert all[..i + 1] == all[..i] + [all[i]];
        var step := AddItem(Some(all[i].0), all[i].1);
        if step.Failure? {
          InsertAllStopsAt(old(request.assets.entries), all, i);
          return step;
        }
        i := i + 1;
      }
      assert all[..i] == all;
      return Success(this);
    }

    /**
     * A typed AddItems overload: a null collection fails with a null argument named
     * `nullParam`; otherwise ToDictionary converts the whole collection first (a
     * repeated key fails before any insertion) and AddItems inserts the result.
     */
    method AddConverted<V>(assets: Option<seq<(string, V)>>, wrap: V -> Option<ContentItem>, nullParam: string)
      returns (r: Result<AssetBuilder, Failure>)
      requires Valid()
      modifies request.assets
      ensures Valid() && request.assets == old(request.assets)
      ensures r == Report(InsertCollection(old(request.assets.entries), assets, wrap, nullParam))
      ensures request.assets.entries == InsertCollection(old(request.assets.entries), assets, wrap, nullParam).entries
    {
      if assets.None? {
        return Failure(NullArgument(nullParam));
      }
      var converted := ToDictionary(assets.value, wrap);
      if converted.Failure? {
        return Failure(converted.error);
      }
      r := AddItems(Some(converted.value));
    }

    /** AddItems(Dictionary<string, string>): null reaches AddItems' own check, so the exception names `items`. */
    method AddTextItems(assets: Option<seq<(string, string)>>) returns (r: Result<AssetBuilder, Failure>)
      requires Valid()
      modifies request.assets
      ensures Valid() && request.assets == old(request.assets)
      ensures r == Report(InsertCollection(old(request.assets.entries), assets, s => Some(Text(s)), "items"))
      ensures request.assets.entries ==
        InsertCollection(old(request.assets.entries), assets, s => Some(Text(s)), "items").entries
    {
      r := AddConverted(assets, s => Some(Text(s)), "items");
    }

    /** AddItems(Dictionary<string, byte[]>): null reaches AddItems' own check, so the exception names `items`. */
    method AddBytesItems(assets: Option<seq<(string, seq<bv8>)>>) returns (r: Result<AssetBuilder, Failure>)
      requires Valid()
      modifies request.assets
      ensures Valid() && request.assets == old(request.assets)
      ensures r == Report(InsertCollection(old(request.assets.entries), assets, b => Some(Bytes(b)), "items"))
      ensures request.assets.entries ==
        InsertCollection(old(request.assets.entries), assets, b => Some(Bytes(b)), "items").entries
    {
      r := AddConverted(assets, b => Some(Bytes(b)), "items");
    }

    /** AddItems(Dictionary<string, Stream>): null reaches AddItems' own check, so the exception names `items`. */
    method AddStreamItems(assets: Option<seq<(string, nat)>>) returns (r: Result<AssetBuilder, Failure>)
      requires Valid()
      modifies request.assets
      ensures Valid() && request.assets == old(request.assets)
      ensures r == Report(InsertCollection(old(request.assets.entries), assets, h => Some(Stream(h)), "items"))
      ensures request.assets.entries ==
        InsertCollection(old(request.assets.entries), assets, h => Some(Stream(h)), "items").entries
    {
      r := AddConverted(assets, h => Some(Stream(h)), "items");
    }

    /** AddItems(IEnumerable<KeyValuePair<string, ContentItem>>): null fails naming `assets`; values pass through as given. */
    method AddItemPairs(assets: Option<seq<(string, Option<ContentItem>)>>) returns (r: Result<AssetBuilder, Failure>)
      requires Valid()
      modifies request.assets
      ensures Valid() && request.assets == old(request.assets)
      ensures r == Report(InsertCollection(old(request.assets.entries), assets, v => v, "assets"))
      ensures request.assets.entries ==
        InsertCollection(old(request.assets.entries), assets, v => v, "assets").entries
    {
      r := AddConverted(assets, v => v, "assets");
    }

    /** AddItems(IEnumerable<KeyValuePair<string, string>>): null fails naming `assets`. */
    method AddTextPairs(assets: Option<seq<(string, string)>>) returns (r: Result<AssetBuilder, Failure>)
      requires Valid()
      modifies request.assets
      ensures Valid() && request.assets == old(request.assets)
      ensures r == Report(InsertCollection(old(request.assets.entries), assets, s => Some(Text(s)), "assets"))
      ensures request.assets.entries ==
        InsertCollection(old(request.assets.entries), assets, s => Some(Text(s)), "assets").entries
    {
      r := AddConverted(assets, s => Some(Text(s)), "assets");
    }

    /** AddItems(IEnumerable<KeyValuePair<string, byte[]>>): null fails naming `assets`. */
    method AddBytesPairs(assets: Option<seq<(string, seq<bv8>)>>) returns (r: Result<AssetBuilder, Failure>)
      requires Valid()
      modifies request.assets
      ensures Valid() && request.assets == old(request.assets)
      ensures r == Report(InsertCollection(old(request.assets.entries), assets, b => Some(Bytes(b)), "assets"))
      ensures request.assets.entries ==
        InsertCollection(old(request.assets.entries), assets, b => Some(Bytes(b)), "assets").entries
    {
      r := AddConverted(assets, b => Some(Bytes(b)), "assets");
    }

    /** AddItems(IEnumerable<KeyValuePair<string, Stream>>): null fails naming `assets`. */
    method AddStreamPairs(assets: Option<seq<(string, nat)>>) returns (r: Result<AssetBuilder, Failure>)
      requires Valid()
      modifies request.assets
      ensures Valid() && request.assets == old(request.assets)
      ensures r == Report(InsertCollection(old(request.assets.entries), assets, h => Some(Stream(h)), "assets"))
      ensures request.assets.entries ==
        InsertCollection(old(request.assets.entries), assets, h => Some(Stream(h)), "assets").entries
    {
      r := AddConverted(assets, h => Some(Stream(h)), "assets");
    }
  }

  /** `new AssetBuilder(request)`: a null request is rejected before anything is touched. */
  method NewAssetBuilder(request: Request?) returns (r: Result<AssetBuilder, Failure>)
    modifies request
    ensures request == null ==> r == Failure(NullArgument("request"))
    ensures request != null ==> r.Success? && r.value.request == request && r.value.Valid()
    ensures request != null && old(request.assets) != null ==>
      request.assets == old(request.assets) && request.assets.entries == old(request.assets.entries)
    ensures request != null && old(request.assets) == null ==> fresh(request.assets) && request.assets.entries == []
  {
    if request == null {
      return Failure(NullArgument("request"));
    }
    var builder := new AssetBuilder(request);
    return Success(builder);
  }
}
