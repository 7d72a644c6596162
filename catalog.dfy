/** `getAllStickerPacks`: fetch every pack of the catalog and shape each into
    `{meta, manifest: {title, author, cover}}`, failing as a whole when any
    pack fails. */
module Catalog {
  import opened Wrappers
  import opened Errors
  import opened Primitives
  import opened Fetch
  import Manifest

  const BatchPrefix := "[getAllStickerPacks] "

  /** A catalog entry's value: its fields, among which the pack key. */
  type PackInfo = m: map<string, string> | "key" in m witness map["key" := ""]

  /** The catalog's `Object.entries`, in that order. */
  type Catalog = seq<(string, PackInfo)>

  datatype ManifestSummary = ManifestSummary(title: string, author: string, cover: Option<Sticker>)

  datatype PackEntry = PackEntry(meta: map<string, string>, manifest: ManifestSummary)

  /** `{id, ...value}`: the catalog fields with `id` added, a field named `id`
      in the value winning over the key because the spread comes last. */
  function Meta(id: string, value: PackInfo): (m: map<string, string>)
    ensures m.Keys == value.Keys + {"id"}
    ensures m["id"] == if "id" in value then value["id"] else id
    ensures forall k :: k in value ==> m[k] == value[k]
  {
    map["id" := id] + value
  }

  /** `{title, author, cover}` of a decoded pack. */
  function Summary(pack: Pack): ManifestSummary {
    ManifestSummary(pack.title, pack.author, pack.cover)
  }

  /** The per-entry callback of the `R.map`, with the default retry budget;
      its own failure keeps the code and gains the batch prefix. */
  function FetchEntry(p: Primitives, net: Network, id: string, value: PackInfo): (r: Result<PackEntry, Error>)
    ensures
      var fetched := GetStickerPack(p, net, id, value["key"]).result;
      && (fetched.Success? ==>
            r == Success(PackEntry(Meta(id, value),
                                   ManifestSummary(fetched.value.title, fetched.value.author, fetched.value.cover))))
      && (fetched.Failure? ==>
            r == Failure(Error(fetched.error.code, "[getAllStickerPacks] " + fetched.error.message)))
  {
    match GetStickerPack(p, net, id, value["key"]).result
    case Success(pack) => Success(PackEntry(Meta(id, value), Summary(pack)))
    case Failure(e) => Failure(Rethrow(BatchPrefix, e.code, e))
  }

  /** What the mapped callback comes to for one catalog entry. */
  type Callback = (string, PackInfo) -> Result<PackEntry, Error>

  /** `Promise.all` over the callback mapped on the entries, taken in order: an
      order-preserving map that stops at the first entry that fails. */
  function AllOrNothing(fetch: Callback, catalog: Catalog): (r: Result<seq<PackEntry>, Error>)
    ensures r.Success? <==> forall i :: 0 <= i < |catalog| ==> fetch(catalog[i].0, catalog[i].1).Success?
    ensures r.Success? ==>
      && |r.value| == |catalog|
      && forall i :: 0 <= i < |catalog| ==> r.value[i] == fetch(catalog[i].0, catalog[i].1).value
    ensures r.Failure? ==>
      exists i :: 0 <= i < |catalog| && fetch(catalog[i].0, catalog[i].1) == Failure(r.error)
               && forall j :: 0 <= j < i ==> fetch(catalog[j].0, catalog[j].1).Success?
  {
    if catalog == [] then Success([])
    else
      match fetch(catalog[0].0, catalog[0].1)
      case Failure(e) => Failure(e)
      case Success(entry) =>
        match AllOrNothing(fetch, catalog[1..])
        case Failure(e) => Failure(e)
        case Success(rest) => Success([entry] + rest)
  }

  /** `getAllStickerPacks`: every catalog entry fetched and shaped, all or
      nothing, in `Object.entries` order. */
  function GetAllStickerPacks(p: Primitives, net: Network, catalog: Catalog): (r: Result<seq<PackEntry>, Error>)
    ensures r.Success? <==> forall i :: 0 <= i < |catalog| ==> FetchEntry(p, net, catalog[i].0, catalog[i].1).Success?
    ensures r.Success? ==>
      && |r.value| == |catalog|
      && forall i :: 0 <= i < |catalog| ==> r.value[i] == FetchEntry(p, net, catalog[i].0, catalog[i].1).value
    ensures r.Failure? ==>
      exists i :: 0 <= i < |catalog| && FetchEntry(p, net, catalog[i].0, catalog[i].1) == Failure(r.error)
               && forall j :: 0 <= j < i ==> FetchEntry(p, net, catalog[j].0, catalog[j].1).Success?
  {
    AllOrNothing((id: string, value: PackInfo) => FetchEntry(p, net, id, value), catalog)
  }

  /** The batch error is the error of the first entry that fails. */
  lemma FirstFailingEntryFailsBatch(p: Primitives, net: Network, catalog: Catalog, i: nat)
    requires i < |catalog|
    requires forall j :: 0 <= j < i ==> FetchEntry(p, net, catalog[j].0, catalog[j].1).Success?
    requires FetchEntry(p, net, catalog[i].0, catalog[i].1).Failure?
    ensures GetAllStickerPacks(p, net, catalog) == Failure(FetchEntry(p, net, catalog[i].0, catalog[i].1).error)
  {
    var r := GetAllStickerPacks(p, net, catalog);
    assert r.Failure?;
    var k :| 0 <= k < |catalog| && FetchEntry(p, net, catalog[k].0, catalog[k].1) == Failure(r.error)
             && forall j :: 0 <= j < k ==> FetchEntry(p, net, catalog[j].0, catalog[j].1).Success?;
    assert k == i;
  }

  /** The scenario of a tampered manifest: when every earlier entry succeeds
      and entry `i` comes back with a MAC that does not match, the batch fails
      with MANIFEST_PARSE and the message of every stage it passed through. */
  lemma TamperedManifestFailsBatch(p: Primitives, net: Network, catalog: Catalog, i: nat)
    requires i < |catalog|
    requires forall j :: 0 <= j < i ==> FetchEntry(p, net, catalog[j].0, catalog[j].1).Success?
    requires net(catalog[i].0, 0).Success?
    requires Manifest.DeriveKeys(p, catalog[i].1["key"]).Success?
    requires p.hmacSha256(Manifest.DeriveKeys(p, catalog[i].1["key"]).value.hmacKey,
                          Manifest.SplitManifest(net(catalog[i].0, 0).value).signed)
             != Manifest.SplitManifest(net(catalog[i].0, 0).value).mac
    ensures GetAllStickerPacks(p, net, catalog) ==
            Failure(Error(Some("MANIFEST_PARSE"),
                          "[getAllStickerPacks] " + ("[getStickerPack] " + ("[parseManifest] " + Manifest.MacFailureMessage))))
  {
    var (id, value) := catalog[i];
    MacFailureNotRetried(p, net, id, value["key"], DefaultRetries);
    FirstFailingEntryFailsBatch(p, net, catalog, i);
  }
}
