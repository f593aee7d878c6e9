/** The "web data" collection of the SKB backend, which holds at most one site
    document, and the HTTP handlers that read and rewrite that document. Each
    handler is a method; the token check, the fresh uuid, the clock, the
    store's reported counts and the outcome of the asset store's `destroy`
    are its parameters. */
module Store {
  import opened Site

  class WebDataCollection {
    /** The site document, absent until the first upsert. */
    var doc: Option<WebData>
    /** Every `destroy` call to the asset store and every document write, in
        the order the handlers issue them. */
    ghost var log: seq<Event>

    /** A deployment whose collection is still empty. */
    constructor ()
      ensures doc == None && log == []
    {
      doc := None;
      log := [];
    }

    /** A deployment whose collection already holds `d`. */
    constructor Load(d: WebData)
      ensures doc == Some(d) && log == []
    {
      doc := Some(d);
      log := [];
    }

    /** The stored `images` array, if any, has no two entries with one `imageId`. */
    ghost predicate IdsUnique()
      reads this
    {
      ImagesOf(doc).Some? ==> UniqueIds(ImagesOf(doc).value)
    }

    /** GET /images: the projection of `images`. With no document at all the
        destructuring of `null` throws, which the handler answers with 500;
        a document without `images` yields `undefined` data. */
    method ListImages() returns (r: Outcome<Option<seq<ImageEntry>>>)
      ensures r.Ok? <==> doc.Some?
      ensures r.Ok? ==> r.value == ImagesOf(doc)
      ensures !r.Ok? ==> r == ServerError
    {
      if doc.None? {
        r := ServerError;
      } else {
        r := Ok(doc.value.images);
      }
    }

    /** POST /images: `$push` one new entry with upsert. `result` is what the
        store reports; a report of no modification and no upsert is taken to
        mean the push had no effect, and the handler answers 500. */
    method RegisterImage(authorized: bool, imageAlt: string, imageUrl: string,
                         cloudinaryId: Option<string>, imageId: string, now: Timestamp,
                         result: UpdateResult)
      returns (r: Outcome<ImageEntry>)
      modifies this
      ensures !authorized ==> r == TokenRejected
      ensures authorized && NoEffect(result) ==> r == ServerError
      ensures !authorized || NoEffect(result) ==> doc == old(doc) && log == old(log)
      ensures authorized && !NoEffect(result) ==>
        var e := ImageEntry(imageId, imageAlt, imageUrl, cloudinaryId, now, now);
        && r == Ok(e)
        && doc.Some?
        && ImagesOf(doc) == Some(ImagesOrEmpty(old(doc)) + [e])
        && StatsOf(doc) == StatsOf(old(doc))
        && log == old(log) + [PushImage(e)]
      ensures old(IdsUnique()) && IdFree(ImagesOrEmpty(old(doc)), imageId) ==> IdsUnique()
    {
      if !authorized {
        return TokenRejected;
      }
      var entry := ImageEntry(imageId, imageAlt, imageUrl, cloudinaryId, now, now);
      if NoEffect(result) {
        return ServerError;
      }
      var before := ImagesOrEmpty(doc);
      if ImagesOf(doc).Some? ==> UniqueIds(before) {
        if IdFree(before, imageId) {
          AppendKeepsUnique(before, entry);
        }
      }
      doc := Some(WebData(Some(before + [entry]), StatsOf(doc)));
      log := log + [PushImage(entry)];
      r := Ok(entry);
    }

    /** PUT /images/:id: load the document, find the first entry carrying `id`,
        destroy its old asset whenever its `cloudinaryId` is truthy (whatever
        the new one is), then overwrite alt, url, asset id and `updatedAt` and
        write the whole array back. A rejected `destroy` (`destroyOk` false)
        aborts with 500 before the write. */
    method UpdateImage(authorized: bool, id: string, imageAlt: string, imageUrl: string,
                       cloudinaryId: Option<string>, now: Timestamp, destroyOk: bool)
      returns (r: Outcome<ImageEntry>)
      modifies this
      ensures !authorized ==> r == TokenRejected
      ensures authorized && ImagesOf(old(doc)).None? ==> r == NotFound
      ensures authorized && ImagesOf(old(doc)).Some? && IdFree(ImagesOf(old(doc)).value, id) ==>
        r == NotFound
      ensures r == TokenRejected || r == NotFound ==> doc == old(doc) && log == old(log)
      ensures authorized && ImagesOf(old(doc)).Some? && !IdFree(ImagesOf(old(doc)).value, id) ==>
        var s := ImagesOf(old(doc)).value;
        var i := FindIndex(s, id);
        var destroyed := DestroyCalls(s[i].cloudinaryId);
        if Truthy(s[i].cloudinaryId) && !destroyOk then
          r == ServerError && doc == old(doc) && log == old(log) + destroyed
        else
          && r.Ok?
          && r.value.imageId == id
          && r.value.createdAt == s[i].createdAt
          && r.value.imageAlt == imageAlt
          && r.value.imageUrl == imageUrl
          && r.value.cloudinaryId == cloudinaryId
          && r.value.updatedAt == now
          && doc.Some? && StatsOf(doc) == StatsOf(old(doc))
          && ImagesOf(doc) == Some(s[i := r.value])
          && log == old(log) + destroyed + [SetImages(s[i := r.value])]
      ensures old(IdsUnique()) ==> IdsUnique()
    {
      if !authorized {
        return TokenRejected;
      }
      if doc.None? || doc.value.images.None? {
        return NotFound;
      }
      var images := doc.value.images.value;
      var i := FindIndex(images, id);
      if i == -1 {
        return NotFound;
      }
      var previous := images[i];
      if Truthy(previous.cloudinaryId) {
        log := log + [Destroy(previous.cloudinaryId.value)];
        if !destroyOk {
          return ServerError;
        }
      }
      var updated := previous.(imageAlt := imageAlt, imageUrl := imageUrl,
                               cloudinaryId := cloudinaryId, updatedAt := now);
      if UniqueIds(images) {
        ReplaceKeepsUnique(images, i, updated);
      }
      images := images[i := updated];
      doc := Some(doc.value.(images := Some(images)));
      log := log + [SetImages(images)];
      r := Ok(updated);
    }

    /** DELETE /images/:id: load the document, `splice(findIndex(...), 1)` the
        array, write it back, then destroy the removed entry's asset if its
        `cloudinaryId` is truthy. For an unknown id `findIndex` gives -1, so the
        LAST entry is removed; on an empty array nothing is removed, the
        unchanged array is written, and reading `cloudinaryId` of `undefined`
        throws (500). A rejected `destroy` answers 500 after the write. */
    method RemoveImage(authorized: bool, id: string, destroyOk: bool) returns (r: Outcome<()>)
      modifies this
      ensures !authorized ==> r == TokenRejected && doc == old(doc) && log == old(log)
      ensures authorized && ImagesOf(old(doc)).None? ==>
        r == NotFound && doc == old(doc) && log == old(log)
      ensures authorized && ImagesOf(old(doc)).Some? ==>
        doc.Some? && StatsOf(doc) == StatsOf(old(doc)) && ImagesOf(doc).Some?
      ensures authorized && ImagesOf(old(doc)) == Some([]) ==>
        ImagesOf(doc) == Some([]) && log == old(log) + [SetImages([])] && r == ServerError
      ensures authorized && ImagesOf(old(doc)).Some? && ImagesOf(old(doc)).value != [] ==>
        var s := ImagesOf(old(doc)).value;
        var k := DeletedIndex(s, id);
        var gone := s[k].cloudinaryId;
        && ImagesOf(doc) == Some(s[..k] + s[k + 1..])
        && log == old(log) + [SetImages(s[..k] + s[k + 1..])] + DestroyCalls(gone)
        && r == (if Truthy(gone) && !destroyOk then ServerError else Ok(()))
      ensures old(IdsUnique()) ==> IdsUnique()
      ensures authorized && old(IdsUnique()) && ImagesOf(old(doc)).Some? &&
              !IdFree(ImagesOf(old(doc)).value, id) ==>
                IdFree(ImagesOf(doc).value, id)
    {
      if !authorized {
        return TokenRejected;
      }
      if doc.None? || doc.value.images.None? {
        return NotFound;
      }
      var images := doc.value.images.value;
      var i := FindIndex(images, id);
      var spliced := SpliceOne(images, i);
      var removed, rest := spliced.0, spliced.1;
      if images != [] {
        SpliceAtFoundIndex(images, id);
      }
      if UniqueIds(images) {
        SpliceKeepsUnique(images, i);
        if i != -1 {
          RemoveAtKeepsUnique(images, i);
        }
      }
      doc := Some(doc.value.(images := Some(rest)));
      log := log + [SetImages(rest)];
      if removed == [] {
        // `deletedImage` is `undefined`
        return ServerError;
      }
      var gone := removed[0];
      if Truthy(gone.cloudinaryId) {
        log := log + [Destroy(gone.cloudinaryId.value)];
        if !destroyOk {
          return ServerError;
        }
      }
      r := Ok(());
    }

    /** POST /updatePesertaPaket: `$set` the whole statistics record, with upsert. */
    method UpdatePesertaPaket(authorized: bool, paudCount: int, paketACount: int,
                              paketBCount: int, paketCCount: int)
      returns (r: Outcome<()>)
      modifies this
      ensures !authorized ==> r == TokenRejected && doc == old(doc) && log == old(log)
      ensures authorized ==>
        var counts := PesertaPaket(paudCount, paketACount, paketBCount, paketCCount);
        && r == Ok(())
        && doc.Some?
        && StatsOf(doc) == Some(counts)
        && ImagesOf(doc) == ImagesOf(old(doc))
        && log == old(log) + [SetPesertaPaket(counts)]
      ensures ImagesOf(doc) == ImagesOf(old(doc))
    {
      if !authorized {
        return TokenRejected;
      }
      var counts := PesertaPaket(paudCount, paketACount, paketBCount, paketCCount);
      doc := Some(WebData(ImagesOf(doc), Some(counts)));
      log := log + [SetPesertaPaket(counts)];
      r := Ok(());
    }

    /** GET /pesertaPaket: the projection of `pesertaPaket`; 500 when there is no
        document to destructure. */
    method ReadPesertaPaket() returns (r: Outcome<Option<PesertaPaket>>)
      ensures r.Ok? <==> doc.Some?
      ensures r.Ok? ==> r.value == StatsOf(doc)
      ensures !r.Ok? ==> r == ServerError
    {
      if doc.None? {
        r := ServerError;
      } else {
        r := Ok(doc.value.pesertaPaket);
      }
    }

    /** PUT /images/:id as evidently intended: the old asset is destroyed only
        when it is being replaced by a different `cloudinaryId`, so the updated
        entry never refers to an asset the call destroyed. Everything else is
        as in `UpdateImage`. */
    method UpdateImageKeepingAsset(authorized: bool, id: string, imageAlt: string, imageUrl: string,
                                   cloudinaryId: Option<string>, now: Timestamp, destroyOk: bool)
      returns (r: Outcome<ImageEntry>)
      modifies this
      ensures !authorized ==> r == TokenRejected
      ensures authorized && ImagesOf(old(doc)).None? ==> r == NotFound
      ensures authorized && ImagesOf(old(doc)).Some? && IdFree(ImagesOf(old(doc)).value, id) ==>
        r == NotFound
      ensures r == TokenRejected || r == NotFound ==> doc == old(doc) && log == old(log)
      ensures authorized && ImagesOf(old(doc)).Some? && !IdFree(ImagesOf(old(doc)).value, id) ==>
        var s := ImagesOf(old(doc)).value;
        var i := FindIndex(s, id);
        var stale := Truthy(s[i].cloudinaryId) && s[i].cloudinaryId != cloudinaryId;
        var destroyed := if stale then DestroyCalls(s[i].cloudinaryId) else [];
        if stale && !destroyOk then
          r == ServerError && doc == old(doc) && log == old(log) + destroyed
        else
          && r.Ok?
          && r.value.imageId == id
          && r.value.createdAt == s[i].createdAt
          && r.value.imageAlt == imageAlt
          && r.value.imageUrl == imageUrl
          && r.value.cloudinaryId == cloudinaryId
          && r.value.updatedAt == now
          && doc.Some? && StatsOf(doc) == StatsOf(old(doc))
          && ImagesOf(doc) == Some(s[i := r.value])
          && log == old(log) + destroyed + [SetImages(s[i := r.value])]
      ensures |old(log)| <= |log|
      ensures r.Ok? ==> forall x :: Destroy(x) in log[|old(log)|..] ==> r.value.cloudinaryId != Some(x)
      ensures old(IdsUnique()) ==> IdsUnique()
    {
      if !authorized {
        return TokenRejected;
      }
      if doc.None? || doc.value.images.None? {
        return NotFound;
      }
      var images := doc.value.images.value;
      var i := FindIndex(images, id);
      if i == -1 {
        return NotFound;
      }
      var previous := images[i];
      if Truthy(previous.cloudinaryId) && previous.cloudinaryId != cloudinaryId {
        log := log + [Destroy(previous.cloudinaryId.value)];
        if !destroyOk {
          return ServerError;
        }
      }
      var updated := previous.(imageAlt := imageAlt, imageUrl := imageUrl,
                               cloudinaryId := cloudinaryId, updatedAt := now);
      if UniqueIds(images) {
        ReplaceKeepsUnique(images, i, updated);
      }
      images := images[i := updated];
      doc := Some(doc.value.(images := Some(images)));
      log := log + [SetImages(images)];
      r := Ok(updated);
    }

    /** DELETE /images/:id as evidently intended: an unknown id is answered
        with 404 and nothing is written or destroyed, as the update handler
        already does. A known id is removed as in `RemoveImage`. */
    method RemoveImageChecked(authorized: bool, id: string, destroyOk: bool) returns (r: Outcome<()>)
      modifies this
      ensures !authorized ==> r == TokenRejected && doc == old(doc) && log == old(log)
      ensures authorized && (ImagesOf(old(doc)).None? || IdFree(ImagesOf(old(doc)).value, id)) ==>
        r == NotFound && doc == old(doc) && log == old(log)
      ensures authorized && ImagesOf(old(doc)).Some? && !IdFree(ImagesOf(old(doc)).value, id) ==>
        var s := ImagesOf(old(doc)).value;
        var k := FindIndex(s, id);
        var gone := s[k].cloudinaryId;
        && doc.Some? && StatsOf(doc) == StatsOf(old(doc)) && ImagesOf(doc).Some?
        && var t := ImagesOf(doc).value;
           && t == s[..k] + s[k + 1..]
           && log == old(log) + [SetImages(t)] + (if Truthy(gone) then [Destroy(gone.value)] else [])
           && r == (if Truthy(gone) && !destroyOk then ServerError else Ok(()))
      ensures ImagesOf(old(doc)).Some? && ImagesOf(doc).Some? ==>
        forall e :: e in ImagesOf(old(doc)).value && e.imageId != id ==> e in ImagesOf(doc).value
      ensures old(IdsUnique()) ==> IdsUnique()
    {
      if !authorized {
        return TokenRejected;
      }
      if doc.None? || doc.value.images.None? {
        return NotFound;
      }
      var images := doc.value.images.value;
      var i := FindIndex(images, id);
      if i == -1 {
        return NotFound;
      }
      var rest := images[..i] + images[i + 1..];
      RemoveAtKeepsOthers(images, i);
      if UniqueIds(images) {
        RemoveAtKeepsUnique(images, i);
      }
      doc := Some(doc.value.(images := Some(rest)));
      log := log + [SetImages(rest)];
      var gone := images[i];
      if Truthy(gone.cloudinaryId) {
        log := log + [Destroy(gone.cloudinaryId.value)];
        if !destroyOk {
          return ServerError;
        }
      }
      r := Ok(());
    }
  }
}
