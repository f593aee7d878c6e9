# SKB backend site document, in Dafny

The SKB backend (`index.js`) keeps one "web data" document per deployment. It
holds an ordered `images` array and a `pesertaPaket` statistics record. The
HTTP handlers register, update, remove and list images, and write and read
the statistics. The image handlers also call the Cloudinary asset store's
`destroy`. This project models that document and those handlers.

- `site.dfy`, module `Site`: the values. These are `ImageEntry`, the
  `PesertaPaket` record, the document `WebData` and the handler `Outcome`
  (data, the `{valid: false}` reply of the token check, 404, 500). It also has
  the `Event` log entries, JavaScript truthiness of a `cloudinaryId`, and the
  two array operations the handlers rely on: `findIndex` by `imageId` and
  `splice(start, 1)` with ECMAScript's negative-start rule. Lemmas show that
  appending a fresh id, replacing an entry in place and splicing all keep
  `imageId`s unique.
- `store.dfy`, module `Store`: class `WebDataCollection`. Its field `doc` is
  the collection's only document, absent until the first upsert. A ghost
  `log` records every `destroy` call and every document write, in order
  (except a register the store reports as having no effect; see "## Left out"). There
  is one method per handler, and each states the outcome and the whole new
  state for every branch of the handler. The class also has two corrected
  handlers (see "## Findings").
- `scenarios.dfy`, module `Scenarios`: client sequences of requests. These
  are read-after-write of the statistics and the life of one image. Two
  concrete documents show the misbehaviour of the remove and update handlers,
  each next to its corrected counterpart.

External effects become parameters:
- the token check is `authorized`;
- the `uuidv4()` result is `imageId`;
- `new Date()` is `now`;
- the `updateOne` counts of the register handler are `result`;
- whether Cloudinary's `destroy` resolves is `destroyOk`.

Three behaviours of the code are easy to misread; the model follows the code:
- GET /images and GET /pesertaPaket answer 500 when no document exists.
  Destructuring the `null` that `findOne` returns throws. They do not return
  an empty result.
- The update handler destroys the old asset before writing the array back.
  It does so whenever the old `cloudinaryId` is truthy, even when the request
  sends the same id.
- The remove handler does not check the index that `findIndex` returns. For
  an unknown id, `splice(-1, 1)` removes the last image. On an empty array
  nothing is removed and the unchanged array is still written. Then reading
  `cloudinaryId` of `undefined` throws, and the handler answers 500.

## Model

| member | source | states |
|---|---|---|
| `Site.FindIndex` | index.js:187 | The result is -1 exactly when no entry carries the id. Otherwise it is an index whose entry carries the id, and no earlier entry carries it (the first match). |
| `Site.FindIndexExact` | index.js:187 | When ids are unique, looking up the id of the entry at `i` gives back `i`. |
| `Site.SpliceStart` | index.js:218 | The start position of `splice` lies within the array. A start inside the array is kept, a negative start counts from the end, and a start before the beginning or past the end is clamped to 0 or to the length. |
| `Site.SpliceOne` | index.js:218 | At most one element is removed. The removed part and the rest together make up the array: the lengths add up and the multisets are equal. A start inside the array removes exactly that element and keeps the order of the rest. A start past the end, or an empty array, removes nothing. |
| `Site.DeletedIndex` | index.js:217-218 | On a non-empty array, this is the position `splice(findIndex(...), 1)` removes. It is the first entry carrying the id, or the last entry when no entry carries it. |
| `Site.SpliceAtFoundIndex` | index.js:217-218 | On a non-empty array, `splice(findIndex(...), 1)` removes exactly the entry at `DeletedIndex` and keeps the others in order. |
| `Site.SpliceFromEnd` | index.js:217-218 | A negative start in range acts like the start `length + start`. |
| `Site.SpliceMinusOne` | index.js:217-218 | On a non-empty array, `splice(-1, 1)` (the unknown-id case) removes exactly the last element and keeps the rest in order. |
| `Site.FindIndexAppended` | index.js:159-164 | An entry pushed with an id no earlier entry carries is found at the end by `findIndex`. The remove handler's splice removes it from there too. |
| `Site.AppendKeepsUnique` | index.js:159-164 | Pushing an entry whose id is not yet used keeps ids unique. |
| `Site.ReplaceKeepsUnique` | index.js:195-200 | Replacing an entry by one with the same id keeps ids unique. |
| `Site.RemoveAtKeepsUnique` | index.js:217-219 | Removing the entry at `k` keeps ids unique, and afterwards no entry carries the removed id. |
| `Site.RemoveAtKeepsOthers` | index.js:217-219 | Removing the entry at `k` keeps every entry whose id differs from the removed one. |
| `Site.SpliceKeepsUnique` | index.js:218-219 | When the ids were unique before, whatever `splice(start, 1)` removes, the rest has unique ids. |
| `Store.WebDataCollection.ListImages` | index.js:142-154 | Answers 500 exactly when there is no document. Otherwise it answers the document's `images` field, which may be missing. |
| `Store.WebDataCollection.RegisterImage` | index.js:155-174 | A rejected token or a store report of no modification and no upsert gives `{valid:false}` or 500, with nothing written. Otherwise exactly one entry is appended at the end, carrying the given alt, url, asset id, the fresh id and `now`. Earlier entries and the statistics are unchanged, and a missing document or `images` field is created. Unique ids stay unique when the id is fresh. |
| `Store.WebDataCollection.UpdateImage` | index.js:177-205 | There is a 404 with nothing written or destroyed when the document, its `images` or the id is missing. Otherwise a truthy old asset id is destroyed first, whatever the new id is; a rejected destroy gives 500 with no write. On success only the first entry with the id changes: alt, url, asset id and `updatedAt` are set, and id and `createdAt` are kept. The length and every other entry are unchanged, and the destroy comes before the single write. Unique ids stay unique. |
| `Store.WebDataCollection.RemoveImage` | index.js:208-229 | There is a 404 with nothing written when there is no document or no `images` field. A known id has exactly that entry removed, with the order of the rest kept. An unknown id on a non-empty array has the last entry removed. Either way one write is followed by at most one destroy, for the removed entry's truthy asset id; a rejected destroy gives 500 after the write. An empty array is written back unchanged and the answer is 500. Unique ids stay unique, and a removed known id no longer occurs. |
| `Store.WebDataCollection.UpdatePesertaPaket` | index.js:237-252 | With a valid token the whole statistics record is replaced by the four given counts, and the document is created if it is missing. `images` is unchanged in every case. |
| `Store.WebDataCollection.ReadPesertaPaket` | index.js:253-262 | Answers 500 exactly when there is no document. Otherwise it answers the stored statistics record, which may be missing. |
| `Store.WebDataCollection.UpdateImageKeepingAsset` | index.js:192-198 | Corrected update: it destroys the old asset only when the old id is truthy and differs from the new one. The updated entry never refers to an asset the call destroyed. Everything else is as in `UpdateImage`. |
| `Store.WebDataCollection.RemoveImageChecked` | index.js:217-222 | Corrected remove: an unknown id gives 404 with nothing written or destroyed. A known id is removed as in `RemoveImage`, and every entry with another id survives. |
| `Scenarios.StatsReadAfterWrite` | index.js:241-256 | A statistics read after a write returns exactly the counts written, and the images are unchanged. |
| `Scenarios.RegisterThenList` | index.js:142-174 | After a register with a fresh id, the listing shows the old gallery with the new entry appended. The statistics are kept, and one push is logged. |
| `Scenarios.UpdateLastThenList` | index.js:142-205 | An update of the last entry that sends its asset id back changes only alt and `updatedAt` in the listing. The log shows the asset's destroy before the single write. |
| `Scenarios.RemoveLastThenList` | index.js:142-229 | A remove of the last entry lists the rest unchanged. The log shows one write and then one destroy of the entry's truthy asset id. |
| `Scenarios.GalleryLifecycle` | index.js:155-229 | Register with a fresh id, update the alt text and then remove, on any gallery where the id is fresh. The listings show the new entry last, then the same entry with the new alt and `updatedAt`, then the original gallery. The log shows one destroy from the update (even though the asset is kept) and another from the remove, each when the entry's asset id is truthy. |
| `Scenarios.UnknownIdRemovesLastImage` | index.js:217-222 | On a gallery of two images, deleting an id neither carries answers success. Only the first image is left, and the second image's asset is destroyed. |
| `Scenarios.UnknownIdRemovesNothing` | index.js:217-222 | The corrected remove answers the same request with 404. The gallery is intact and nothing is logged. |
| `Scenarios.SameAssetUpdateDestroysReferencedAsset` | index.js:192-198 | An alt-text-only update that sends the asset id back destroys that asset and then writes the array, in which the updated entry still refers to it. The whole log is given. |
| `Scenarios.SameAssetUpdateKeepsAsset` | index.js:192-198 | With the corrected update, the same request destroys nothing: the whole log is the single write. |

## Findings

| source | as written | input that shows it | evidently intended | confidence | as-written member | corrected member |
|---|---|---|---|---|---|---|
| index.js:217-222 | The index from `findIndex` goes to `splice` unchecked. For an unknown id, -1 removes the last image, its asset is destroyed, and the answer is success. | images `[id-1, id-2]`, DELETE /images/id-3 | 404 with nothing changed, as PUT does at index.js:188-190 | high, not executed | `Scenarios.UnknownIdRemovesLastImage` | `Store.WebDataCollection.RemoveImageChecked` |
| index.js:192-197 | The old asset is destroyed whenever its id is truthy, even when the request sends the same `cloudinaryId` back. The stored entry then refers to a deleted asset. | images `[id-1 with asset magang/a]`, PUT /images/id-1 with a new alt and `cloudinaryId` magang/a | destroy only an asset that is being replaced | medium, not executed | `Scenarios.SameAssetUpdateDestroysReferencedAsset` | `Store.WebDataCollection.UpdateImageKeepingAsset` |

`UpdateImage` and `RemoveImage` model the handlers as written. The corrected
handlers sit beside them, and the concrete scenarios contrast the two.

## Left out

- Login, logout and GET /verifyToken (index.js:47-105) are left out: JWT signing and verification, `bcrypt.compare` and cookie handling are cryptography and clock. Token checking appears only as the boolean `authorized`.
- POST /upload (index.js:110-139) is left out because it is a streamed upload to Cloudinary over the network. Cloudinary's `destroy` appears only as a `Destroy` entry in the ghost log, and its success as `destroyOk`.
- Express setup, CORS, JSON and multer parsing, the response bodies and messages, and server start (index.js:15-24, 264-271) are HTTP plumbing.
- The MongoDB connection and driver exceptions (index.js:37-42) are left out. A `findOne` or `updateOne` that throws would give 500 through the handlers' `catch`; the model treats both calls as succeeding reads and writes of `doc`.
- The lost-update race between concurrent read-modify-write requests to PUT and DELETE is left out: the model is sequential.
- The unused `limit` query parameter of GET /images (index.js:144) is left out.
- RegisterImage: takes one instant `now` for `createdAt`, `updatedAt` and the returned entry. The source calls `new Date()` separately at index.js:162 and index.js:168, so those times may differ by milliseconds.
- RegisterImage: treats a report of zero modifications and zero upserts as a push that had no effect. A report of an effect is taken as the push having happened.
- RegisterImage: a register the store reports as having no effect leaves no entry in the ghost log, although the handler did issue the `updateOne` (index.js:159-164) before answering 500; the log records only writes that took effect there.
- UpdatePesertaPaket: the request fields are modelled as integers. The source stores whatever JSON values the client sends. Likewise `imageAlt` and `imageUrl` are modelled as strings, and `cloudinaryId` as an absent value or a string.
- The resolved result of Cloudinary's `destroy` (for example "not found") is not distinguished. The handlers ignore it.
