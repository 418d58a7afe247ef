/** `_handle_gallery_creation` (modules/async_upload_manager.py): per group,
    which gallery is created or reused before the group's files upload.

    The gallery-creating API calls are not part of this model: the request
    a call would make is recorded, and what it returned is an input. */
module Gallery {
  import opened Results
  import opened Text
  import opened Settings

  /** `title.replace('[', '').replace(']', '').strip()`. */
  function CleanTitle(title: string): (r: string)
    ensures '[' !in r && ']' !in r
    ensures r == [] || (!IsSpace(r[0]) && !IsSpace(r[|r| - 1]))
    ensures |r| <= |title|
    ensures forall x :: x != '[' && x != ']' && !IsSpace(x) ==> multiset(r)[x] == multiset(title)[x]
  {
    var noOpen := RemoveAll(title, '[');
    var noBrackets := RemoveAll(noOpen, ']');
    assert '[' !in noBrackets by {
      assert multiset(noBrackets)['['] == multiset(noOpen)['['] == 0;
    }
    Strip(noBrackets)
  }

  lemma {:induction false} RemoveAbsent(s: string, c: char)
    requires c !in s
    ensures RemoveAll(s, c) == s
  {
    if |s| > 0 {
      assert c !in s[1..] by {
        assert forall k :: 0 <= k < |s[1..]| ==> s[1..][k] == s[k + 1];
      }
      RemoveAbsent(s[1..], c);
      assert s == [s[0]] + s[1..];
    }
  }

  lemma StripStripped(s: string)
    requires s == [] || (!IsSpace(s[0]) && !IsSpace(s[|s| - 1]))
    ensures Strip(s) == s
  {
    if |s| > 0 {
      assert LeadingSpace(s) == 0;
      assert s[0..] == s;
      assert TrailingSpace(s) == 0;
    }
  }

  /** Cleaning a clean title changes nothing. */
  lemma CleanTitleIdempotent(title: string)
    ensures CleanTitle(CleanTitle(title)) == CleanTitle(title)
  {
    var t := CleanTitle(title);
    RemoveAbsent(t, '[');
    RemoveAbsent(t, ']');
    StripStripped(t);
  }

  /** A title without brackets or surrounding whitespace is kept as is. */
  lemma CleanTitleKeepsCleanTitles(title: string)
    requires '[' !in title && ']' !in title
    requires title == [] || (!IsSpace(title[0]) && !IsSpace(title[|title| - 1]))
    ensures CleanTitle(title) == title
  {
    RemoveAbsent(title, '[');
    RemoveAbsent(title, ']');
    StripStripped(title);
  }

  // ---------------------------------------------------------------------------
  // Gallery creation

  /** The gallery-creating call made, if any. */
  datatype Request =
    | PixhostGallery(title: string)
    | ImxGallery(user: Value, password: Value, title: string)

  /** `('register_pix_gal', None, new_data)` on the progress queue. */
  datatype Event = RegisterPixGal(data: Dict)

  /** The group's upload settings and pixhost gallery data, the group's
      gallery id, the events emitted and the call made. */
  datatype Outcome = Outcome(cfg: Dict, pixData: Dict, galleryId: Value, events: seq<Event>, request: Option<Request>)

  /** Whether a pixhost gallery reply is truthy: a non-empty dictionary. */
  predicate ReplyTruthy(reply: Option<Dict>) {
    reply.Some? && reply.value != map[]
  }

  /** `_handle_gallery_creation(base_cfg, group, current_cfg, {}, creds, ...)`
      where `current_cfg` is a fresh copy of `base_cfg`, the group is titled
      `title` with gallery id `galleryId`, and the pixhost and imx gallery
      calls, when made, return `pixReply` and `imxReply`. Fails only when
      `base_cfg` has no `service`; a gallery is requested only with a truthy
      `auto_gallery`, and the group is left alone unless the service is
      pixhost or imx with `auto_gallery`, or pixhost with a gallery hash. */
  function CreateGallery(baseCfg: Dict, title: string, galleryId: Value, creds: Dict, pixReply: Option<Dict>, imxReply: Value)
    : (r: Result<Outcome, string>)
    ensures r.Err? <==> "service" !in baseCfg
    ensures r.Ok? && r.value.request.Some? ==> Truthy(Get(baseCfg, "auto_gallery", Null))
    ensures r.Ok? && r.value != Outcome(baseCfg, map[], galleryId, [], None) ==>
              || (baseCfg["service"] == Text("pixhost.to")
                  && (Truthy(Get(baseCfg, "auto_gallery", Null)) || Truthy(Get(baseCfg, "pix_gallery_hash", Null))))
              || (baseCfg["service"] == Text("imx.to") && Truthy(Get(baseCfg, "auto_gallery", Null)))
  {
    if "service" !in baseCfg then Err("service")
    else
      var service := baseCfg["service"];
      var untouched := Outcome(baseCfg, map[], galleryId, [], None);
      if service == Text("pixhost.to") then
        if Truthy(Get(baseCfg, "auto_gallery", Null)) then
          var clean := CleanTitle(title);
          if ReplyTruthy(pixReply) then
            var data := pixReply.value;
            Ok(Outcome(baseCfg, data, Get(data, "gallery_hash", Text("")), [RegisterPixGal(data)], Some(PixhostGallery(clean))))
          else
            Ok(untouched.(request := Some(PixhostGallery(clean))))
        else if Truthy(Get(baseCfg, "pix_gallery_hash", Null)) then
          var hash := baseCfg["pix_gallery_hash"];
          Ok(untouched.(pixData := map["gallery_hash" := hash], galleryId := hash))
        else Ok(untouched)
      else if service == Text("imx.to") && Truthy(Get(baseCfg, "auto_gallery", Null)) then
        var req := Some(ImxGallery(Get(creds, "imx_user", Null), Get(creds, "imx_pass", Null), title));
        if Truthy(imxReply) then
          Ok(Outcome(baseCfg["gallery_id" := imxReply], map[], imxReply, [], req))
        else Ok(untouched.(request := req))
      else Ok(untouched)
  }

  // ---------------------------------------------------------------------------
  // Properties

  /** For pixhost with `auto_gallery` set, a gallery named by the cleaned
      title is requested and `pix_gallery_hash` is never consulted: setting
      or removing it changes nothing but the copied settings. */
  lemma AutoGalleryTakesPrecedence(baseCfg: Dict, cfg2: Dict, title: string, galleryId: Value, creds: Dict,
                                   pixReply: Option<Dict>, imxReply: Value)
    requires "service" in baseCfg && baseCfg["service"] == Text("pixhost.to")
    requires Truthy(Get(baseCfg, "auto_gallery", Null))
    requires forall k :: k != "pix_gallery_hash" ==> (k in cfg2 <==> k in baseCfg)
    requires forall k :: k != "pix_gallery_hash" && k in baseCfg ==> cfg2[k] == baseCfg[k]
    ensures var r := CreateGallery(baseCfg, title, galleryId, creds, pixReply, imxReply);
            var r2 := CreateGallery(cfg2, title, galleryId, creds, pixReply, imxReply);
            && r.Ok? && r2.Ok?
            && r.value.request == Some(PixhostGallery(CleanTitle(title)))
            && r2.value == r.value.(cfg := cfg2)
  {
    assert "service" in cfg2 && cfg2["service"] == baseCfg["service"];
    assert Get(cfg2, "auto_gallery", Null) == Get(baseCfg, "auto_gallery", Null);
  }

  /** A successfully created pixhost gallery is registered once, its data
      becomes the group's pixhost data, and its hash the group's gallery id. */
  lemma PixhostGalleryRegistered(baseCfg: Dict, title: string, galleryId: Value, creds: Dict,
                                 pixReply: Option<Dict>, imxReply: Value)
    requires "service" in baseCfg && baseCfg["service"] == Text("pixhost.to")
    requires Truthy(Get(baseCfg, "auto_gallery", Null))
    ensures var r := CreateGallery(baseCfg, title, galleryId, creds, pixReply, imxReply).value;
            && (ReplyTruthy(pixReply) ==>
                  r.events == [RegisterPixGal(pixReply.value)] && r.pixData == pixReply.value
                  && r.galleryId == Get(pixReply.value, "gallery_hash", Text("")))
            && (!ReplyTruthy(pixReply) ==> r.events == [] && r.pixData == map[] && r.galleryId == galleryId)
  {
  }

  /** Without `auto_gallery`, a configured pixhost gallery hash is reused
      for the group and no gallery is requested. */
  lemma PixhostHashReused(baseCfg: Dict, title: string, galleryId: Value, creds: Dict,
                          pixReply: Option<Dict>, imxReply: Value)
    requires "service" in baseCfg && baseCfg["service"] == Text("pixhost.to")
    requires !Truthy(Get(baseCfg, "auto_gallery", Null))
    requires Truthy(Get(baseCfg, "pix_gallery_hash", Null))
    ensures var r := CreateGallery(baseCfg, title, galleryId, creds, pixReply, imxReply).value;
            && r.request == None && r.events == []
            && r.pixData == map["gallery_hash" := baseCfg["pix_gallery_hash"]]
            && r.galleryId == baseCfg["pix_gallery_hash"]
  {
  }

  /** The imx gallery is requested with the raw group title, brackets and
      all; only a truthy gallery id changes the group's settings. */
  lemma ImxUsesRawTitle(baseCfg: Dict, title: string, galleryId: Value, creds: Dict,
                        pixReply: Option<Dict>, imxReply: Value)
    requires "service" in baseCfg && baseCfg["service"] == Text("imx.to")
    requires Truthy(Get(baseCfg, "auto_gallery", Null))
    ensures var r := CreateGallery(baseCfg, title, galleryId, creds, pixReply, imxReply).value;
            && r.request.Some? && r.request.value.ImxGallery? && r.request.value.title == title
            && (Truthy(imxReply) ==> r.cfg == baseCfg["gallery_id" := imxReply] && r.galleryId == imxReply)
            && (!Truthy(imxReply) ==> r.cfg == baseCfg && r.galleryId == galleryId)
  {
  }

  /** Without a truthy `auto_gallery` no gallery is requested, and unless
      the service is pixhost with a truthy `pix_gallery_hash` nothing
      changes at all: imx.to without `auto_gallery`, and pixhost.to with
      neither setting, leave the group exactly as it was. */
  lemma NothingWithoutAutoGallery(baseCfg: Dict, title: string, galleryId: Value, creds: Dict,
                                  pixReply: Option<Dict>, imxReply: Value)
    requires "service" in baseCfg
    requires !Truthy(Get(baseCfg, "auto_gallery", Null))
    ensures CreateGallery(baseCfg, title, galleryId, creds, pixReply, imxReply).value.request == None
    ensures !(baseCfg["service"] == Text("pixhost.to") && Truthy(Get(baseCfg, "pix_gallery_hash", Null))) ==>
              CreateGallery(baseCfg, title, galleryId, creds, pixReply, imxReply) == Ok(Outcome(baseCfg, map[], galleryId, [], None))
  {
  }

  /** The group's settings differ from the base settings only by an imx
      gallery id; the pixhost data is empty unless the service is pixhost;
      and any other service is left entirely alone. */
  lemma OnlyGalleryIdChanges(baseCfg: Dict, title: string, galleryId: Value, creds: Dict,
                             pixReply: Option<Dict>, imxReply: Value)
    requires "service" in baseCfg
    ensures var r := CreateGallery(baseCfg, title, galleryId, creds, pixReply, imxReply).value;
            && (|| r.cfg == baseCfg
                || (&& baseCfg["service"] == Text("imx.to") && Truthy(Get(baseCfg, "auto_gallery", Null))
                    && Truthy(imxReply) && r.cfg == baseCfg["gallery_id" := imxReply]))
            && (baseCfg["service"] != Text("pixhost.to") ==> r.pixData == map[] && r.events == [])
            && (baseCfg["service"] != Text("pixhost.to") && baseCfg["service"] != Text("imx.to") ==>
                  r == Outcome(baseCfg, map[], galleryId, [], None))
  {
  }
}
