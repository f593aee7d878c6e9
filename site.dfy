/** The values stored in the singleton "web data" document of the SKB backend,
    and the two JavaScript array operations its image handlers rely on:
    `Array.prototype.findIndex` by `imageId` and `Array.prototype.splice(start, 1)`. */
module Site {

  datatype Option<+T> = None | Some(value: T)

  /** A `Date`, as milliseconds since the epoch. */
  type Timestamp = nat

  /** One entry of the document's `images` array. `cloudinaryId` is whatever the
      client sent: absent (`undefined`/`null`) or a string. */
  datatype ImageEntry = ImageEntry(
    imageId: string,
    imageAlt: string,
    imageUrl: string,
    cloudinaryId: Option<string>,
    createdAt: Timestamp,
    updatedAt: Timestamp)

  /** The `pesertaPaket` statistics sub-record. */
  datatype PesertaPaket = PesertaPaket(siswaPAUD: int, paketA: int, paketB: int, paketC: int)

  /** The site document; either field may be missing from the stored document. */
  datatype WebData = WebData(images: Option<seq<ImageEntry>>, pesertaPaket: Option<PesertaPaket>)

  /** The counts reported by the store for an `updateOne`. */
  datatype UpdateResult = UpdateResult(modifiedCount: nat, upsertedCount: nat)

  /** How a handler answers: its data, the `{valid: false}` reply of the token
      check, a 404, or a 500. */
  datatype Outcome<+T> = Ok(value: T) | TokenRejected | NotFound | ServerError

  /** Externally visible effects, in the order a handler performs them: a call
      to the asset store's `destroy`, or a write to the document. */
  datatype Event =
    | Destroy(publicId: string)
    | PushImage(entry: ImageEntry)
    | SetImages(images: seq<ImageEntry>)
    | SetPesertaPaket(counts: PesertaPaket)

  /** JavaScript truthiness of a `cloudinaryId`: `undefined`, `null` and "" are falsy. */
  predicate Truthy(id: Option<string>)
  {
    id.Some? && id.value != ""
  }

  /** The register handler's failure test: the store reported neither a
      modification nor an upsert. */
  predicate NoEffect(r: UpdateResult)
  {
    r.modifiedCount == 0 && r.upsertedCount == 0
  }

  /** The `images` field of a possibly absent document. */
  function ImagesOf(doc: Option<WebData>): Option<seq<ImageEntry>>
  {
    if doc.Some? then doc.value.images else None
  }

  /** The array a `$push` into `images` extends: the stored one, or a new empty
      one when the document or its `images` field is missing. */
  function ImagesOrEmpty(doc: Option<WebData>): seq<ImageEntry>
  {
    if ImagesOf(doc).Some? then ImagesOf(doc).value else []
  }

  /** The `pesertaPaket` field of a possibly absent document. */
  function StatsOf(doc: Option<WebData>): Option<PesertaPaket>
  {
    if doc.Some? then doc.value.pesertaPaket else None
  }

  /** No entry of `s` carries `id`. */
  predicate IdFree(s: seq<ImageEntry>, id: string)
  {
    forall j :: 0 <= j < |s| ==> s[j].imageId != id
  }

  /** No two entries of `s` carry the same `imageId`. */
  predicate UniqueIds(s: seq<ImageEntry>)
  {
    forall i, j :: 0 <= i < j < |s| ==> s[i].imageId != s[j].imageId
  }

  /** `images.findIndex(img => img.imageId === id)`: the first position holding
      `id`, or -1 when there is none. */
  function FindIndex(s: seq<ImageEntry>, id: string): (r: int)
    ensures -1 <= r < |s|
    ensures r == -1 <==> IdFree(s, id)
    ensures r != -1 ==> s[r].imageId == id && forall j :: 0 <= j < r ==> s[j].imageId != id
  {
    if s == [] then -1
    else if s[0].imageId == id then 0
    else
      var t := FindIndex(s[1..], id);
      if t == -1 then -1 else t + 1
  }

  /** The position at which `splice(start, ...)` starts on an array of length
      `len`: a negative `start` counts from the end, and both ends are clamped. */
  function SpliceStart(start: int, len: nat): (k: nat)
    ensures k <= len
    ensures 0 <= start <= len ==> k == start
    ensures start < 0 && len + start >= 0 ==> k == len + start
    ensures start < 0 && len + start < 0 ==> k == 0
    ensures start > len ==> k == len
  {
    if start < 0 then (if len + start < 0 then 0 else len + start)
    else if start > len then len
    else start
  }

  /** `s.splice(start, 1)` on a copy of `s`: the removed elements (at most one)
      and what remains of `s`. */
  function SpliceOne<T>(s: seq<T>, start: int): (res: (seq<T>, seq<T>))
    ensures |res.0| <= 1 && |res.0| + |res.1| == |s|
    ensures multiset(res.0) + multiset(res.1) == multiset(s)
    ensures 0 <= start < |s| ==> res == ([s[start]], s[..start] + s[start + 1..])
    ensures start >= |s| ==> res == ([], s)
    ensures s == [] ==> res == ([], [])
  {
    var k := SpliceStart(start, |s|);
    var n := if k < |s| then 1 else 0;
    assert s == s[..k] + s[k..k + n] + s[k + n..];
    assert multiset(s) == multiset(s[..k]) + multiset(s[k..k + n]) + multiset(s[k + n..]);
    assert n == 1 ==> s[k..k + n] == [s[k]];
    assert n == 0 ==> s[..k] + s[k + n..] == s;
    (s[k..k + n], s[..k] + s[k + n..])
  }

  /** The position `splice(findIndex(...), 1)` removes from a non-empty array:
      the first entry carrying `id`, or the last entry when none does. */
  function DeletedIndex(s: seq<ImageEntry>, id: string): (k: nat)
    requires s != []
    ensures k < |s|
    ensures !IdFree(s, id) ==> s[k].imageId == id && forall j :: 0 <= j < k ==> s[j].imageId != id
    ensures IdFree(s, id) ==> k == |s| - 1
  {
    SpliceStart(FindIndex(s, id), |s|)
  }

  /** The asset-store calls made for an entry's old `cloudinaryId`: one
      `destroy` when it is truthy, none otherwise. */
  function DestroyCalls(cloudinaryId: Option<string>): seq<Event>
  {
    if Truthy(cloudinaryId) then [Destroy(cloudinaryId.value)] else []
  }

  /** A negative start counts back from the end of the array. */
  lemma SpliceFromEnd<T>(s: seq<T>, start: int)
    requires -|s| <= start < 0
    ensures SpliceOne(s, start) == SpliceOne(s, |s| + start)
  {
  }

  /** `splice(-1, 1)`, what the remove handler runs for an unknown id, removes
      the last element of a non-empty array. */
  lemma SpliceMinusOne<T>(s: seq<T>)
    requires s != []
    ensures SpliceOne(s, -1) == ([s[|s| - 1]], s[..|s| - 1])
  {
    SpliceFromEnd(s, -1);
    assert s[|s| - 1 + 1..] == [];
    assert s[..|s| - 1] + s[|s|..] == s[..|s| - 1];
  }

  /** `splice(findIndex(...), 1)` on a non-empty array removes exactly the
      entry at `DeletedIndex` and keeps the others in order. */
  lemma SpliceAtFoundIndex(s: seq<ImageEntry>, id: string)
    requires s != []
    ensures var k := DeletedIndex(s, id);
            SpliceOne(s, FindIndex(s, id)) == ([s[k]], s[..k] + s[k + 1..])
  {
    if IdFree(s, id) {
      SpliceMinusOne(s);
      assert s[|s| - 1 + 1..] == [];
      assert s[..|s| - 1] + s[|s| - 1 + 1..] == s[..|s| - 1];
    }
  }

  /** With unique ids, `FindIndex` locates every entry exactly. */
  lemma FindIndexExact(s: seq<ImageEntry>, i: int)
    requires UniqueIds(s) && 0 <= i < |s|
    ensures FindIndex(s, s[i].imageId) == i
  {
  }

  /** An entry pushed with an id not used before is found at the end. */
  lemma FindIndexAppended(s: seq<ImageEntry>, e: ImageEntry)
    requires IdFree(s, e.imageId)
    ensures FindIndex(s + [e], e.imageId) == |s|
    ensures DeletedIndex(s + [e], e.imageId) == |s|
  {
    var t := s + [e];
    assert t[|s|] == e;
    assert forall j :: 0 <= j < |s| ==> t[j] == s[j];
  }

  /** Appending an entry whose id is not yet used keeps ids unique. */
  lemma AppendKeepsUnique(s: seq<ImageEntry>, e: ImageEntry)
    requires UniqueIds(s) && IdFree(s, e.imageId)
    ensures UniqueIds(s + [e])
  {
  }

  /** Replacing an entry by one with the same id keeps ids unique. */
  lemma ReplaceKeepsUnique(s: seq<ImageEntry>, i: int, e: ImageEntry)
    requires UniqueIds(s) && 0 <= i < |s| && e.imageId == s[i].imageId
    ensures UniqueIds(s[i := e])
  {
  }

  /** Removing the entry at `k` keeps ids unique, and when ids were unique the
      removed id no longer occurs. */
  lemma RemoveAtKeepsUnique(s: seq<ImageEntry>, k: int)
    requires UniqueIds(s) && 0 <= k < |s|
    ensures UniqueIds(s[..k] + s[k + 1..])
    ensures IdFree(s[..k] + s[k + 1..], s[k].imageId)
  {
  }

  /** Removing the entry at `k` keeps every entry with another id. */
  lemma RemoveAtKeepsOthers(s: seq<ImageEntry>, k: int)
    requires 0 <= k < |s|
    ensures forall e :: e in s && e.imageId != s[k].imageId ==> e in s[..k] + s[k + 1..]
  {
  }

  /** Whatever `splice(start, 1)` removes, the rest keeps ids unique. */
  lemma SpliceKeepsUnique(s: seq<ImageEntry>, start: int)
    requires UniqueIds(s)
    ensures UniqueIds(SpliceOne(s, start).1)
  {
  }
}
