# Asset builder of the Gotenberg .NET client, modelled in Dafny

The client assembles conversion requests for a remote document-conversion
service. Each request carries an asset map: named files (images, stylesheets,
documents to merge) sent as parts of the multipart body. `AssetBuilder`
(`lib/Domain/Builders/Faceted/AssetBuilder.cs`) is the fluent builder that fills
that map. It wraps one request, gives it an empty map when it has none, and adds
assets either one at a time (`AddItem`) or from a collection (`AddItems`). Every
call hands back the same builder.

The model has four modules:

- `Wrappers`: `Option` and `Result`. `None` stands for a C# `null`, and `Failure` for a thrown exception.
- `AssetNames`: the name rule of `AddItem`. A name must be set, its extension must be non-empty, and it must contain no `/`. The module also proves what the rule means in plain terms.
- `Assets`:
  - `ContentItem` (text, bytes or an opaque stream handle) and the exceptions as the `Failure` datatype.
  - Specification functions: `Insert` for `AddItem`, `InsertAll` for the `AddItems` loop, `ToDictionary` for LINQ's `ToDictionary`, and `InsertCollection` for the typed `AddItems` overloads.
  - Lemmas about these functions.
  - The mutable `AssetDictionary` and `Request` classes.
- `AssetBuilders`: the `AssetBuilder` class. Its methods change the request's dictionary in place, and each is proved against the specification functions.

Dafny has no overloading, so each C# overload is a separately named method:

- `AddTextItem`, `AddBytesItem`, `AddStreamItem` are the typed `AddItem` overloads.
- `AddTextItems`, `AddBytesItems`, `AddStreamItems` are the typed dictionary forms of `AddItems`.
- `AddItemPairs`, `AddTextPairs`, `AddBytesPairs`, `AddStreamPairs` are the key/value-enumerable forms.

These typed collection methods all delegate to one helper, `AddConverted`.

Behaviour worth noting:

- The name rule lives in the builder, not in the dictionary.
- The builder checks the name before the value. An invalid name paired with a null value reports the name error.
- A null collection raises an `ArgumentNullException`, not a separate error kind. That exception names `items` for the dictionary overloads, because their `?.` passes the null on to the check at line 60. It names `assets` for the key/value-enumerable overloads.
- The typed overloads convert the whole collection with `ToDictionary` before inserting anything. So a repeated key in a key/value enumerable fails before any insertion.

## Model

| member | source | states |
|---|---|---|
| AssetNames.LastIndexOf | lib/Domain/Builders/Faceted/AssetBuilder.cs:28 | `name.LastIndexOf('/')`: -1 exactly when the character is absent; otherwise the index holds it and no later index does |
| AssetNames.Extension | lib/Domain/Builders/Faceted/AssetBuilder.cs:28 | the model's rule for the `FileInfo` extension (a trailing `.` gives none): the extension is empty, or it is a suffix of the name of at least two characters that starts with `.` and holds no other `.` and no `/` |
| AssetNames.IsNotSet | lib/Domain/Builders/Faceted/AssetBuilder.cs:28 | the `IsNotSet` test, as null-or-white-space: true of null and of `""`; a set string is non-null and non-empty |
| AssetNames.ValidName | lib/Domain/Builders/Faceted/AssetBuilder.cs:28-32 | the guard of `AddItem`: an accepted name is non-null, at least two characters long and free of `/` (its full characterisation is `ValidNameIff`) |
| AssetNames.ExtensionIff | lib/Domain/Builders/Faceted/AssetBuilder.cs:28 | the extension is non-empty exactly when the last `.` of the final segment has a character after it |
| AssetNames.ValidNameIff | lib/Domain/Builders/Faceted/AssetBuilder.cs:28-32 | a name is accepted iff it is not null or all white space, has no `/`, and its last `.` has a character after it (both directions) |
| AssetNames.SlashIsInvalid | lib/Domain/Builders/Faceted/AssetBuilder.cs:28-32 | any name containing `/` is rejected |
| AssetNames.NoDotIsInvalid | lib/Domain/Builders/Faceted/AssetBuilder.cs:28-32 | a name without `.` is rejected |
| AssetNames.TrailingDotIsInvalid | lib/Domain/Builders/Faceted/AssetBuilder.cs:28-32 | under the model's extension rule, a name ending in `.` is rejected (`FileInfo` itself accepts some such names; see Left out) |
| AssetNames.AcceptedExamples | lib/Domain/Builders/Faceted/AssetBuilder.cs:28-32 | `logo.png` is accepted |
| AssetNames.RefusedExamples | lib/Domain/Builders/Faceted/AssetBuilder.cs:28-32 | null, `""`, `README` and `img/logo.png` are refused |
| Assets.Insert | lib/Domain/Builders/Faceted/AssetBuilder.cs:28-36 | `AddItem` on the entries: succeeds iff the name is valid, the value non-null and the name new to the map; success keeps the old entries as a prefix and the map gains exactly `name ↦ value`; a valid name never yields the name error |
| Assets.InsertChecksNameFirst | lib/Domain/Builders/Faceted/AssetBuilder.cs:28-34 | an invalid name fails with the out-of-range error whatever the value, a null value included |
| Assets.InsertRejectsNull | lib/Domain/Builders/Faceted/AssetBuilder.cs:34 | a valid name with a null value fails with the null-argument error for `value` |
| Assets.InsertAdds | lib/Domain/Builders/Faceted/AssetBuilder.cs:34-36 | a valid new name with a value is appended after the existing entries; the map gains exactly `name ↦ value` and nothing else changes |
| Assets.InsertRejectsDuplicate | lib/Domain/Builders/Faceted/AssetBuilder.cs:34 | a valid name already in the map fails as `Dictionary.Add` does on a present key |
| Assets.InsertKeepsInvariant | lib/Domain/Builders/Faceted/AssetBuilder.cs:28-34 | insertion keeps the map's keys distinct and every key a valid asset name |
| Assets.InsertAll | lib/Domain/Builders/Faceted/AssetBuilder.cs:62-65 | the loop never removes an entry; when it completes, every item had a valid name and a value and was appended in order |
| Assets.InsertAllSnoc | lib/Domain/Builders/Faceted/AssetBuilder.cs:62-65 | the loop is a left fold: one more item takes exactly one `AddItem` step from the state reached so far |
| Assets.InsertAllStopsAt | lib/Domain/Builders/Faceted/AssetBuilder.cs:62-65 | no rollback: if item k is the first to fail, items 0..k-1 stay inserted, later items are not attempted, and item k's exception is reported |
| Assets.InsertAllCompletesOnlyIf | lib/Domain/Builders/Faceted/AssetBuilder.cs:62-67 | a completed fold had items with distinct keys, none already in the map (with `InsertAll`'s contract and `InsertAllSucceeds`, completion holds in both directions) |
| Assets.InsertAllSucceeds | lib/Domain/Builders/Faceted/AssetBuilder.cs:62-67 | items with valid names, values and distinct keys that are new to the map all go through |
| Assets.InsertAllEmpty | lib/Domain/Builders/Faceted/AssetBuilder.cs:62-67 | an empty collection is a no-op that succeeds |
| Assets.InsertAllKeepsInvariant | lib/Domain/Builders/Faceted/AssetBuilder.cs:62-65 | collection insertion, complete or stopped early, keeps keys distinct and every key a valid name |
| Assets.ToDictionary | lib/Domain/Builders/Faceted/AssetBuilder.cs:87-90 | conversion succeeds iff the keys are distinct, and then yields the pairs in order with converted values |
| Assets.InsertCollection | lib/Domain/Builders/Faceted/AssetBuilder.cs:70-106 | a typed `AddItems` overload on the entries: it never removes an entry, and it completes only on a non-null collection with distinct keys, every one of which is appended |
| Assets.NullCollectionChangesNothing | lib/Domain/Builders/Faceted/AssetBuilder.cs:70-106 | every typed collection overload fails on null with the named null argument and inserts nothing |
| Assets.InsertCollectionIsWrappedFold | lib/Domain/Builders/Faceted/AssetBuilder.cs:70-106 | a typed collection with distinct keys behaves exactly as the ContentItem form on its wrapped values; one with a repeated key fails and inserts nothing |
| Assets.Request.constructor | lib/Domain/Builders/Faceted/AssetBuilder.cs:19 | a request holds the asset map it is given, which may be null (`RequestBase.Assets`) |
| Assets.AssetDictionary.constructor | lib/Domain/Builders/Faceted/AssetBuilder.cs:19 | a new asset dictionary is empty |
| Assets.AssetDictionary.Add | lib/Domain/Builders/Faceted/AssetBuilder.cs:34 | appends the entry when the key is new; otherwise fails and leaves the entries unchanged |
| AssetBuilders.NewAssetBuilder | lib/Domain/Builders/Faceted/AssetBuilder.cs:16-19 | a null request is rejected; otherwise the builder wraps the request, gives it a fresh empty map if it had none, and leaves an existing map and its entries unchanged |
| AssetBuilders.AssetBuilder.constructor | lib/Domain/Builders/Faceted/AssetBuilder.cs:16-20 | wraps the request; its asset map is fresh and empty if it was null, and kept with its entries otherwise |
| AssetBuilders.AssetBuilder.AddItem | lib/Domain/Builders/Faceted/AssetBuilder.cs:25-37 | the new map and the result are those of `Insert`: on success the same builder is returned, and a failure leaves the map as it was |
| AssetBuilders.AssetBuilder.AddTextItem | lib/Domain/Builders/Faceted/AssetBuilder.cs:40-41 | behaves as `AddItem` on the text wrapped as `Text` |
| AssetBuilders.AssetBuilder.AddBytesItem | lib/Domain/Builders/Faceted/AssetBuilder.cs:44-45 | behaves as `AddItem` on the bytes wrapped as `Bytes` |
| AssetBuilders.AssetBuilder.AddStreamItem | lib/Domain/Builders/Faceted/AssetBuilder.cs:48-49 | behaves as `AddItem` on the stream wrapped as `Stream` |
| AssetBuilders.AssetBuilder.AddItems | lib/Domain/Builders/Faceted/AssetBuilder.cs:58-68 | null fails naming `items` with the map unchanged; otherwise the new map and result are those of the fold `InsertAll` |
| AssetBuilders.AssetBuilder.AddConverted | lib/Domain/Builders/Faceted/AssetBuilder.cs:70-106 | the shared body of the typed `AddItems` overloads: the new map and the result are those of `InsertCollection` |
| AssetBuilders.AssetBuilder.AddTextItems | lib/Domain/Builders/Faceted/AssetBuilder.cs:71-72 | behaves as `InsertCollection` with values wrapped as `Text`; null names `items` |
| AssetBuilders.AssetBuilder.AddBytesItems | lib/Domain/Builders/Faceted/AssetBuilder.cs:75-76 | behaves as `InsertCollection` with values wrapped as `Bytes`; null names `items` |
| AssetBuilders.AssetBuilder.AddStreamItems | lib/Domain/Builders/Faceted/AssetBuilder.cs:79-80 | behaves as `InsertCollection` with values wrapped as `Stream`; null names `items` |
| AssetBuilders.AssetBuilder.AddItemPairs | lib/Domain/Builders/Faceted/AssetBuilder.cs:87-90 | behaves as `InsertCollection` with values passed through; null names `assets` |
| AssetBuilders.AssetBuilder.AddTextPairs | lib/Domain/Builders/Faceted/AssetBuilder.cs:93-96 | behaves as `InsertCollection` with values wrapped as `Text`; null names `assets` |
| AssetBuilders.AssetBuilder.AddBytesPairs | lib/Domain/Builders/Faceted/AssetBuilder.cs:99-101 | behaves as `InsertCollection` with values wrapped as `Bytes`; null names `assets` |
| AssetBuilders.AssetBuilder.AddStreamPairs | lib/Domain/Builders/Faceted/AssetBuilder.cs:104-106 | behaves as `InsertCollection` with values wrapped as `Stream`; null names `assets` |

## Left out

- `lib/GotenbergSharpClient.cs` is not part of this model. It is the HTTP client that sends a built request: transport calls, response streaming, cancellation and error mapping.
- `IsNotSet` is defined outside `AssetBuilder.cs` and is not modelled from its source. It is modelled as `string.IsNullOrWhiteSpace`, using the white-space characters `char.IsWhiteSpace` accepts.
- `FileInfo` platform behaviour is not modelled. The model does not resolve the name to a full path, treat `\` as a separator, or reject invalid path characters. `/` is the only separator, and the model gives a name ending in `.` an empty extension. `FileInfo` does not: on Unix the extension of `a.` is `.`, and on Windows trailing dots are dropped first, so `a.png.` has extension `.png`. The program therefore accepts names ending in `.` (with an extension before the dot, on Windows), and the model rejects every such name.
- `AssetDictionary` and `ContentItem` are defined outside `AssetBuilder.cs` and are not modelled from their source. `AssetDictionary.Add` is assumed to behave like `Dictionary.Add`: inserting a key that is already present fails and changes nothing.
- A null raw value handed to the typed `AddItem` overloads, or stored in a typed collection, is not modelled. What `new ContentItem(null)` does depends on the `ContentItem` constructor, which is not modelled, so raw text, bytes and stream values are non-null here.
- A null key in a key/value enumerable is not modelled. Keys are plain strings in the collection forms, where `ToDictionary` and `Dictionary` refuse null keys themselves.
- `Dictionary<,>` enumeration order is not modelled. Collections are sequences, and iteration order is sequence order. The copy `new Dictionary<string, ContentItem>(…)` at line 88 is taken to keep that order.
- Stream contents and `ContentItem` internals are not modelled. A stream is an opaque handle.
