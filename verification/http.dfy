/** The HTTP answers the handlers and the middleware produce. */
module Http {
  import opened Basics
  import opened Models

  /** One element of the `GET /banner` listing. `tagIds` is `None` when the
      slice was never appended to: the field has no `omitempty`, so such a
      banner is rendered with `"tag_ids": null`. */
  datatype BannerView = BannerView(
    bannerId: nat, content: Json, createdAt: nat, updatedAt: nat,
    isActive: bool, featureId: int, tagIds: Option<seq<int>>)

  datatype Response =
    | Created(bannerId: nat)          // 201 {"banner_id": ...}
    | Ok                              // 200 "OK"
    | NoContent                       // 204
    | Listing(entries: seq<BannerView>) // 200 [...]
    | Document(body: Json)            // 200 with the banner's content document
    | BadRequest                      // 400
    | Unauthorized                    // 401
    | Forbidden                       // 403
    | NotFound                        // 404
    | Conflict                        // 409
    | InternalError                   // 500
}
