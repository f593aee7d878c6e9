/** Sequences of requests against the site document, as a client of the
    handlers sees them: read-after-write of the statistics, the life of one
    gallery image, and two concrete documents on which the remove and update
    handlers misbehave, each beside its corrected counterpart. */
module Scenarios {
  import opened Site
  import opened Store

  /** POST /updatePesertaPaket then GET /pesertaPaket returns exactly the
      counts written, whatever the document held before, and leaves `images`
      alone. */
  method StatsReadAfterWrite(c: WebDataCollection, paudCount: int, paketACount: int,
                             paketBCount: int, paketCCount: int)
    returns (r: Outcome<Option<PesertaPaket>>)
    modifies c
    ensures r == Ok(Some(PesertaPaket(paudCount, paketACount, paketBCount, paketCCount)))
    ensures ImagesOf(c.doc) == old(ImagesOf(c.doc))
  {
    var written := c.UpdatePesertaPaket(true, paudCount, paketACount, paketBCount, paketCCount);
    r := c.ReadPesertaPaket();
  }

  /** POST /images with a fresh id, then GET /images: the new entry is listed
      last and the earlier entries are untouched. */
  method RegisterThenList(c: WebDataCollection, imageAlt: string, imageUrl: string,
                          cloudinaryId: Option<string>, imageId: string, now: Timestamp,
                          result: UpdateResult)
    returns (listed: Outcome<Option<seq<ImageEntry>>>)
    requires !NoEffect(result)
    requires IdFree(ImagesOrEmpty(c.doc), imageId)
    modifies c
    ensures var e := ImageEntry(imageId, imageAlt, imageUrl, cloudinaryId, now, now);
      && c.doc == Some(WebData(Some(old(ImagesOrEmpty(c.doc)) + [e]), old(StatsOf(c.doc))))
      && listed == Ok(Some(old(ImagesOrEmpty(c.doc)) + [e]))
      && c.log == old(c.log) + [PushImage(e)]
  {
    var registered := c.RegisterImage(true, imageAlt, imageUrl, cloudinaryId, imageId, now, result);
    listed := c.ListImages();
  }

  /** PUT /images/:id on the last entry, sending its asset id back, then
      GET /images: only that entry changes, and its asset is destroyed first
      whenever its id is truthy. */
  method UpdateLastThenList(c: WebDataCollection, ghost s: seq<ImageEntry>, e: ImageEntry,
                            ghost stats: Option<PesertaPaket>, newAlt: string, now: Timestamp)
    returns (listed: Outcome<Option<seq<ImageEntry>>>)
    requires c.doc == Some(WebData(Some(s + [e]), stats)) && IdFree(s, e.imageId)
    modifies c
    ensures var e' := e.(imageAlt := newAlt, updatedAt := now);
      && c.doc == Some(WebData(Some(s + [e']), stats))
      && listed == Ok(Some(s + [e']))
      && c.log == old(c.log) + DestroyCalls(e.cloudinaryId) + [SetImages(s + [e'])]
  {
    FindIndexAppended(s, e);
    var updated := c.UpdateImage(true, e.imageId, newAlt, e.imageUrl, e.cloudinaryId, now, true);
    assert (s + [e])[|s| := e.(imageAlt := newAlt, updatedAt := now)] == s + [e.(imageAlt := newAlt, updatedAt := now)];
    listed := c.ListImages();
  }

  /** DELETE /images/:id on the last entry, then GET /images: the rest is
      listed unchanged, after one write and then one destroy of the entry's
      truthy asset id. */
  method RemoveLastThenList(c: WebDataCollection, ghost s: seq<ImageEntry>, e: ImageEntry,
                            ghost stats: Option<PesertaPaket>)
    returns (listed: Outcome<Option<seq<ImageEntry>>>)
    requires c.doc == Some(WebData(Some(s + [e]), stats)) && IdFree(s, e.imageId)
    modifies c
    ensures c.doc == Some(WebData(Some(s), stats))
    ensures listed == Ok(Some(s))
    ensures c.log == old(c.log) + [SetImages(s)] + DestroyCalls(e.cloudinaryId)
  {
    FindIndexAppended(s, e);
    assert (s + [e])[..|s|] + (s + [e])[|s| + 1..] == s;
    var removed := c.RemoveImage(true, e.imageId, true);
    listed := c.ListImages();
  }

  /** Register an image with a fresh id, change its alt text (sending the same
      asset id back), then delete it. Each listing shows the new entry last and
      the other entries untouched, and the gallery ends as it began. Because
      the update handler destroys the old asset even when it is kept, an image
      with a truthy asset id sees that asset destroyed twice. */
  method GalleryLifecycle(c: WebDataCollection, imageAlt: string, imageUrl: string,
                          cloudinaryId: Option<string>, imageId: string,
                          created: Timestamp, edited: Timestamp, newAlt: string,
                          result: UpdateResult)
    returns (afterRegister: Outcome<Option<seq<ImageEntry>>>,
             afterUpdate: Outcome<Option<seq<ImageEntry>>>,
             afterRemove: Outcome<Option<seq<ImageEntry>>>)
    requires !NoEffect(result)
    requires IdFree(ImagesOrEmpty(c.doc), imageId)
    modifies c
    ensures
      var s := old(ImagesOrEmpty(c.doc));
      var e := ImageEntry(imageId, imageAlt, imageUrl, cloudinaryId, created, created);
      var e' := ImageEntry(imageId, newAlt, imageUrl, cloudinaryId, created, edited);
      && afterRegister == Ok(Some(s + [e]))
      && afterUpdate == Ok(Some(s + [e']))
      && afterRemove == Ok(Some(s))
      && c.log == old(c.log) + [PushImage(e)] + DestroyCalls(cloudinaryId)
                 + [SetImages(s + [e']), SetImages(s)] + DestroyCalls(cloudinaryId)
    ensures StatsOf(c.doc) == old(StatsOf(c.doc))
  {
    ghost var s := ImagesOrEmpty(c.doc);
    ghost var stats := StatsOf(c.doc);
    var e := ImageEntry(imageId, imageAlt, imageUrl, cloudinaryId, created, created);
    afterRegister := RegisterThenList(c, imageAlt, imageUrl, cloudinaryId, imageId, created, result);
    afterUpdate := UpdateLastThenList(c, s, e, stats, newAlt, edited);
    afterRemove := RemoveLastThenList(c, s, e.(imageAlt := newAlt, updatedAt := edited), stats);
  }

  /** Two images of a gallery, used by the concrete cases below. */
  const First := ImageEntry("id-1", "gedung", "https://res.example/a.jpg", Some("magang/a"), 1, 1)
  const Second := ImageEntry("id-2", "kelas", "https://res.example/b.jpg", Some("magang/b"), 2, 2)

  /** DELETE /images/:id with an id no entry carries: the handler answers
      success, the second image is gone and its asset destroyed. */
  method UnknownIdRemovesLastImage()
    returns (r: Outcome<()>, listed: Outcome<Option<seq<ImageEntry>>>, ghost effects: seq<Event>)
    ensures r == Ok(())
    ensures listed == Ok(Some([First]))
    ensures effects == [SetImages([First]), Destroy("magang/b")]
  {
    var c := new WebDataCollection.Load(WebData(Some([First, Second]), None));
    assert IdFree([First, Second], "id-3");
    assert [First, Second][..1] + [First, Second][2..] == [First];
    r := c.RemoveImage(true, "id-3", true);
    listed := c.ListImages();
    effects := c.log;
  }

  /** The corrected remove handler answers the same request with 404 and
      leaves the gallery and the asset store alone. */
  method UnknownIdRemovesNothing()
    returns (r: Outcome<()>, listed: Outcome<Option<seq<ImageEntry>>>, ghost effects: seq<Event>)
    ensures r == NotFound
    ensures listed == Ok(Some([First, Second]))
    ensures effects == []
  {
    var c := new WebDataCollection.Load(WebData(Some([First, Second]), None));
    assert IdFree([First, Second], "id-3");
    r := c.RemoveImageChecked(true, "id-3", true);
    listed := c.ListImages();
    effects := c.log;
  }

  /** PUT /images/:id that changes only the alt text and sends the same asset
      id back: the handler destroys that asset, and the stored entry goes on
      referring to it. */
  method SameAssetUpdateDestroysReferencedAsset()
    returns (r: Outcome<ImageEntry>, ghost effects: seq<Event>)
    ensures r.Ok? && r.value.cloudinaryId == Some("magang/a") && r.value.imageAlt == "gedung baru"
    ensures effects == [Destroy("magang/a"),
                        SetImages([First.(imageAlt := "gedung baru", updatedAt := 3), Second])]
  {
    var c := new WebDataCollection.Load(WebData(Some([First, Second]), None));
    assert FindIndex([First, Second], "id-1") == 0;
    r := c.UpdateImage(true, "id-1", "gedung baru", First.imageUrl, Some("magang/a"), 3, true);
    assert r.value == First.(imageAlt := "gedung baru", updatedAt := 3);
    assert [First, Second][0 := r.value] == [r.value, Second];
    effects := c.log;
  }

  /** The corrected update handler keeps the asset the entry still uses. */
  method SameAssetUpdateKeepsAsset()
    returns (r: Outcome<ImageEntry>, ghost effects: seq<Event>)
    ensures r.Ok? && r.value.cloudinaryId == Some("magang/a") && r.value.imageAlt == "gedung baru"
    ensures effects == [SetImages([First.(imageAlt := "gedung baru", updatedAt := 3), Second])]
  {
    var c := new WebDataCollection.Load(WebData(Some([First, Second]), None));
    assert FindIndex([First, Second], "id-1") == 0;
    r := c.UpdateImageKeepingAsset(true, "id-1", "gedung baru", First.imageUrl, Some("magang/a"), 3, true);
    assert r.value == First.(imageAlt := "gedung baru", updatedAt := 3);
    assert [First, Second][0 := r.value] == [r.value, Second];
    effects := c.log;
  }
}
