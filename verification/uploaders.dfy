/** `_create_uploader` (modules/async_upload_manager.py): which uploader a
    file gets, and with which thumbnail size.

    The uploader classes themselves are not part of this model: an uploader
    is the record of the arguments it would be built with. The progress
    callback, the HTTP client and the generated Turbo upload id are left
    out of those records. */
module Uploaders {
  import opened Results
  import opened Settings

  const TurboHomeUrl: string := "https://www.turboimagehost.com/"
  const ViprHomeUrl: string := "https://vipr.im/"
  const ImxCoverSize: string := "600"
  const TurboCoverSize: string := "600"
  const ViprCoverSize: string := "800x800"

  /** The plugin services the registry knows, and `get_plugin_instance`:
      given a service, its credentials and the whole configuration, the
      instance it builds (an opaque number), or `None` when it builds
      nothing. The plugin code itself is not part of this model. */
  datatype Registry = Registry(services: set<string>, instance: (string, Value, Dict) -> Option<nat>)

  datatype Uploader =
    | Imx(apiKey: Value, file: string, thumb: Value, format: Value, galleryId: Value)
    | Pixhost(file: string, content: Value, thumb: Value, galleryHash: Value, uploadHash: Value, cover: Value)
    | Turbo(file: string, homeUrl: string, content: Value, thumb: Value, galleryId: Value)
    | Vipr(file: string, uploadUrl: Value, thumb: Value, galleryId: Value)
    | Plugin(service: string, file: string, instance: nat)

  datatype CreateError =
    | MissingKey(key: string)
      /** `.get` called on a configuration value that is not a dictionary. */
    | NotADict(key: string)
    | NoPluginInstance(service: string)

  /** `cfg[k]`. */
  function Require(cfg: Dict, k: string): (r: Result<Value, CreateError>)
    ensures r.Ok? <==> k in cfg
    ensures r.Ok? ==> r.value == cfg[k]
    ensures r.Err? ==> r.error == MissingKey(k)
  {
    if k in cfg then Ok(cfg[k]) else Err(MissingKey(k))
  }

  /** The condition `is_first and cfg[coverKey]` (when `indexed`) or
      `is_first and cfg.get(coverKey)`: the cover flag is read only for
      the group's first file. */
  function CoverSelected(cfg: Dict, isFirst: bool, coverKey: string, indexed: bool): Result<bool, CreateError> {
    if !isFirst then Ok(false)
    else if indexed then
      if coverKey in cfg then Ok(Truthy(cfg[coverKey])) else Err(MissingKey(coverKey))
    else Ok(Truthy(Get(cfg, coverKey, Null)))
  }

  /** `coverSize if <cover selected> else cfg[thumbKey]`. */
  function ChooseThumb(cfg: Dict, isFirst: bool, coverKey: string, indexed: bool, thumbKey: string, coverSize: string)
    : Result<Value, CreateError>
  {
    var cover := CoverSelected(cfg, isFirst, coverKey, indexed);
    if cover.Err? then Err(cover.error)
    else if cover.value then Ok(Text(coverSize))
    else Require(cfg, thumbKey)
  }

  /** `cfg.get('vipr_meta', {}).get('upload_url', VIPR_HOME_URL)`. */
  function ViprUploadUrl(cfg: Dict): Result<Value, CreateError> {
    var meta := Get(cfg, "vipr_meta", Table(map[]));
    if meta.Table? then Ok(Get(meta.entries, "upload_url", Text(ViprHomeUrl)))
    else Err(NotADict("vipr_meta"))
  }

  /** imx.to: the cover size for a first file whose `imx_cover` is set,
      `imx_thumb` otherwise; `api_key` is required. */
  function CreateImx(file: string, isFirst: bool, cfg: Dict): (r: Result<Uploader, CreateError>)
    ensures r.Ok? <==> && "api_key" in cfg && (isFirst ==> "imx_cover" in cfg)
                       && ((isFirst && "imx_cover" in cfg && Truthy(cfg["imx_cover"])) || "imx_thumb" in cfg)
    ensures r.Ok? ==> && r.value.Imx? && r.value.file == file && r.value.apiKey == cfg["api_key"]
                      && r.value.thumb == (if isFirst && Truthy(cfg["imx_cover"]) then Text(ImxCoverSize) else cfg["imx_thumb"])
                      && r.value.format == Get(cfg, "imx_format", Text("Fixed Width"))
                      && r.value.galleryId == Get(cfg, "gallery_id", Null)
    ensures r.Err? ==> r.error.MissingKey? && r.error.key in {"imx_cover", "imx_thumb", "api_key"} && r.error.key !in cfg
  {
    var th := ChooseThumb(cfg, isFirst, "imx_cover", true, "imx_thumb", ImxCoverSize);
    var key := Require(cfg, "api_key");
    if th.Err? then Err(th.error)
    else if key.Err? then Err(key.error)
    else Ok(Imx(key.value, file, th.value, Get(cfg, "imx_format", Text("Fixed Width")), Get(cfg, "gallery_id", Null)))
  }

  /** pixhost.to: the cover flag itself (for a first file) goes to the
      uploader, with the gallery hashes the gallery step produced. */
  function CreatePixhost(file: string, isFirst: bool, cfg: Dict, pixData: Dict): (r: Result<Uploader, CreateError>)
    ensures r.Ok? <==> (isFirst ==> "pix_cover" in cfg) && "pix_content" in cfg && "pix_thumb" in cfg
    ensures r.Ok? ==> && r.value.Pixhost? && r.value.file == file
                      && r.value.content == cfg["pix_content"] && r.value.thumb == cfg["pix_thumb"]
                      && r.value.galleryHash == Get(pixData, "gallery_hash", Null)
                      && r.value.uploadHash == Get(pixData, "gallery_upload_hash", Null)
                      && r.value.cover == (if isFirst then cfg["pix_cover"] else Flag(false))
    ensures r.Err? ==> r.error.MissingKey? && r.error.key in {"pix_cover", "pix_content", "pix_thumb"} && r.error.key !in cfg
  {
    var cover := if isFirst then Require(cfg, "pix_cover") else Ok(Flag(false));
    var content := Require(cfg, "pix_content");
    var thumb := Require(cfg, "pix_thumb");
    if cover.Err? then Err(cover.error)
    else if content.Err? then Err(content.error)
    else if thumb.Err? then Err(thumb.error)
    else Ok(Pixhost(file, content.value, thumb.value, Get(pixData, "gallery_hash", Null),
                    Get(pixData, "gallery_upload_hash", Null), cover.value))
  }

  /** turboimagehost: an absent `turbo_cover` counts as unset. */
  function CreateTurbo(file: string, isFirst: bool, cfg: Dict): (r: Result<Uploader, CreateError>)
    ensures r.Ok? <==> && ((isFirst && Truthy(Get(cfg, "turbo_cover", Null))) || "turbo_thumb" in cfg)
                       && "turbo_content" in cfg && "turbo_gal_id" in cfg
    ensures r.Ok? ==> && r.value.Turbo? && r.value.file == file && r.value.homeUrl == TurboHomeUrl
                      && r.value.content == cfg["turbo_content"] && r.value.galleryId == cfg["turbo_gal_id"]
                      && r.value.thumb == (if isFirst && Truthy(Get(cfg, "turbo_cover", Null)) then Text(TurboCoverSize)
                                           else cfg["turbo_thumb"])
    ensures r.Err? ==> r.error.MissingKey? && r.error.key in {"turbo_thumb", "turbo_content", "turbo_gal_id"} && r.error.key !in cfg
  {
    var th := ChooseThumb(cfg, isFirst, "turbo_cover", false, "turbo_thumb", TurboCoverSize);
    var content := Require(cfg, "turbo_content");
    var gal := Require(cfg, "turbo_gal_id");
    if th.Err? then Err(th.error)
    else if content.Err? then Err(content.error)
    else if gal.Err? then Err(gal.error)
    else Ok(Turbo(file, TurboHomeUrl, content.value, th.value, gal.value))
  }

  /** vipr.im: the upload URL comes from `vipr_meta` when it has one. */
  function CreateVipr(file: string, isFirst: bool, cfg: Dict): (r: Result<Uploader, CreateError>)
    ensures r.Ok? <==> && ((isFirst && Truthy(Get(cfg, "vipr_cover", Null))) || "vipr_thumb" in cfg)
                       && Get(cfg, "vipr_meta", Table(map[])).Table? && "vipr_gal_id" in cfg
    ensures r.Ok? ==> && r.value.Vipr? && r.value.file == file && r.value.galleryId == cfg["vipr_gal_id"]
                      && r.value.uploadUrl == Get(Get(cfg, "vipr_meta", Table(map[])).entries, "upload_url", Text(ViprHomeUrl))
                      && r.value.thumb == (if isFirst && Truthy(Get(cfg, "vipr_cover", Null)) then Text(ViprCoverSize)
                                           else cfg["vipr_thumb"])
    ensures r.Err? ==> || (r.error.MissingKey? && r.error.key in {"vipr_thumb", "vipr_gal_id"} && r.error.key !in cfg)
                       || (r.error == NotADict("vipr_meta") && "vipr_meta" in cfg && !cfg["vipr_meta"].Table?)
  {
    var th := ChooseThumb(cfg, isFirst, "vipr_cover", false, "vipr_thumb", ViprCoverSize);
    var url := ViprUploadUrl(cfg);
    var gal := Require(cfg, "vipr_gal_id");
    if th.Err? then Err(th.error)
    else if url.Err? then Err(url.error)
    else if gal.Err? then Err(gal.error)
    else Ok(Vipr(file, url.value, th.value, gal.value))
  }

  /** `cfg.get('plugin_credentials', {}).get(service, {})`: fails like
      `.get` on a non-dictionary when `plugin_credentials` holds one. */
  function PluginCredentials(cfg: Dict, service: string): (r: Result<Value, CreateError>)
    ensures r.Err? <==> "plugin_credentials" in cfg && !cfg["plugin_credentials"].Table?
    ensures r.Err? ==> r.error == NotADict("plugin_credentials")
    ensures r.Ok? && "plugin_credentials" in cfg && service in cfg["plugin_credentials"].entries ==>
              r.value == cfg["plugin_credentials"].entries[service]
    ensures r.Ok? && !("plugin_credentials" in cfg && service in cfg["plugin_credentials"].entries) ==>
              r.value == Table(map[])
  {
    var all := Get(cfg, "plugin_credentials", Table(map[]));
    if all.Table? then Ok(Get(all.entries, service, Table(map[]))) else Err(NotADict("plugin_credentials"))
  }

  /** `_create_plugin_uploader`: the adapter around the instance the
      registry builds from the service's credentials and the configuration. */
  function CreatePlugin(service: string, file: string, cfg: Dict, registry: Registry): (r: Result<Uploader, CreateError>)
    ensures r.Ok? <==> PluginCredentials(cfg, service).Ok?
                       && registry.instance(service, PluginCredentials(cfg, service).value, cfg).Some?
    ensures r.Ok? ==> r.value == Plugin(service, file, registry.instance(service, PluginCredentials(cfg, service).value, cfg).value)
    ensures r.Err? ==> r.error == NotADict("plugin_credentials") || r.error == NoPluginInstance(service)
  {
    var creds := PluginCredentials(cfg, service);
    if creds.Err? then Err(creds.error)
    else
      var inst := registry.instance(service, creds.value, cfg);
      if inst.None? then Err(NoPluginInstance(service)) else Ok(Plugin(service, file, inst.value))
  }

  function Wrap(r: Result<Uploader, CreateError>): Result<Option<Uploader>, CreateError> {
    if r.Err? then Err(r.error) else Ok(Some(r.value))
  }

  /** `_create_uploader(service, fp, is_first, cfg, pix_data, ...)`: a plugin
      service wins over the built-in ones; a service that is neither yields
      `None`. */
  function CreateUploader(service: string, file: string, isFirst: bool, cfg: Dict, pixData: Dict, registry: Registry)
    : (r: Result<Option<Uploader>, CreateError>)
    ensures service in registry.services ==> r == Wrap(CreatePlugin(service, file, cfg, registry))
    ensures r.Ok? && r.value.Some? ==> r.value.value.file == file
    ensures r.Ok? && r.value.Some? ==> (r.value.value.Plugin? <==> service in registry.services)
    ensures service !in registry.services && service !in BuiltIn ==> r == Ok(None)
    ensures r == Err(NoPluginInstance(service)) ==> service in registry.services
    ensures service !in registry.services && service == "imx.to" ==> r == Wrap(CreateImx(file, isFirst, cfg))
    ensures service !in registry.services && service == "pixhost.to" ==> r == Wrap(CreatePixhost(file, isFirst, cfg, pixData))
    ensures service !in registry.services && service == "turboimagehost" ==> r == Wrap(CreateTurbo(file, isFirst, cfg))
    ensures service !in registry.services && service == "vipr.im" ==> r == Wrap(CreateVipr(file, isFirst, cfg))
  {
    if service in registry.services then Wrap(CreatePlugin(service, file, cfg, registry))
    else if service == "imx.to" then Wrap(CreateImx(file, isFirst, cfg))
    else if service == "pixhost.to" then Wrap(CreatePixhost(file, isFirst, cfg, pixData))
    else if service == "turboimagehost" then Wrap(CreateTurbo(file, isFirst, cfg))
    else if service == "vipr.im" then Wrap(CreateVipr(file, isFirst, cfg))
    else Ok(None)
  }

  // ---------------------------------------------------------------------------
  // Properties

  const BuiltIn: set<string> := {"imx.to", "pixhost.to", "turboimagehost", "vipr.im"}
  const CoverKeys: set<string> := {"imx_cover", "pix_cover", "turbo_cover", "vipr_cover"}
  /** Every setting some built-in service reads with `cfg[k]`. */
  const RequiredKeys: set<string> :=
    {"api_key", "imx_cover", "imx_thumb", "pix_cover", "pix_content", "pix_thumb",
     "turbo_thumb", "turbo_content", "turbo_gal_id", "vipr_thumb", "vipr_gal_id"}

  /** A service that is neither a plugin nor built in yields no uploader,
      whatever the configuration says. */
  lemma UnknownServiceYieldsNothing(service: string, file: string, isFirst: bool, cfg: Dict, pixData: Dict, registry: Registry)
    requires service !in registry.services && service !in BuiltIn
    ensures CreateUploader(service, file, isFirst, cfg, pixData, registry) == Ok(None)
  {
  }

  /** Only a missing key, a non-dictionary `vipr_meta` or
      `plugin_credentials`, or a plugin that builds no instance makes
      creation fail, and each error names what really went wrong. */
  lemma CreateErrorsAreGenuine(service: string, file: string, isFirst: bool, cfg: Dict, pixData: Dict, registry: Registry)
    ensures var r := CreateUploader(service, file, isFirst, cfg, pixData, registry);
            && (r.Err? && r.error.MissingKey? ==> service !in registry.services && service in BuiltIn && r.error.key !in cfg)
            && (r.Err? && r.error.NotADict? ==>
                  || (service !in registry.services && service == "vipr.im" && r.error.key == "vipr_meta"
                      && "vipr_meta" in cfg && !cfg["vipr_meta"].Table?)
                  || (service in registry.services && r.error.key == "plugin_credentials"
                      && "plugin_credentials" in cfg && !cfg["plugin_credentials"].Table?))
            && (r.Err? && r.error.NoPluginInstance? ==>
                  && service in registry.services && r.error.service == service
                  && PluginCredentials(cfg, service).Ok?
                  && registry.instance(service, PluginCredentials(cfg, service).value, cfg).None?)
  {
  }

  /** A `plugin_credentials` setting that is not a dictionary makes every
      plugin service fail, whatever its registry would build. */
  lemma NonDictCredentialsFail(service: string, file: string, isFirst: bool, cfg: Dict, pixData: Dict, registry: Registry)
    requires service in registry.services
    requires "plugin_credentials" in cfg && !cfg["plugin_credentials"].Table?
    ensures CreateUploader(service, file, isFirst, cfg, pixData, registry) == Err(NotADict("plugin_credentials"))
  {
  }

  /** `cfg` and `cfg2` differ at most in the cover settings. */
  ghost predicate SameBesideCovers(cfg: Dict, cfg2: Dict) {
    && (forall k :: k !in CoverKeys ==> (k in cfg <==> k in cfg2))
    && (forall k :: k !in CoverKeys && k in cfg ==> cfg2[k] == cfg[k])
  }

  lemma SameBesideCoversRead(cfg: Dict, cfg2: Dict, k: string, default: Value)
    requires SameBesideCovers(cfg, cfg2) && k !in CoverKeys
    ensures Require(cfg, k) == Require(cfg2, k)
    ensures Get(cfg, k, default) == Get(cfg2, k, default)
  {
  }

  lemma ThumbIgnoresCovers(cfg: Dict, cfg2: Dict, coverKey: string, indexed: bool, thumbKey: string, size: string)
    requires SameBesideCovers(cfg, cfg2) && thumbKey !in CoverKeys
    ensures ChooseThumb(cfg, false, coverKey, indexed, thumbKey, size) == ChooseThumb(cfg2, false, coverKey, indexed, thumbKey, size)
  {
    SameBesideCoversRead(cfg, cfg2, thumbKey, Null);
  }

  /** The cover settings are read for the group's first file only: for any
      other file of a built-in service, changing or removing them changes
      nothing. A plugin gets the whole configuration, so for a plugin the
      outcome is unchanged exactly when its instance is. */
  lemma CoverIgnoredForLaterFiles(service: string, file: string, cfg: Dict, cfg2: Dict, pixData: Dict, registry: Registry)
    requires SameBesideCovers(cfg, cfg2)
    ensures service !in registry.services ==>
              (CreateUploader(service, file, false, cfg, pixData, registry)
                 == CreateUploader(service, file, false, cfg2, pixData, registry))
    ensures service in registry.services ==>
              (CreateUploader(service, file, false, cfg, pixData, registry)
                 == CreateUploader(service, file, false, cfg2, pixData, registry)
               <==> || PluginCredentials(cfg, service).Err?
                    || registry.instance(service, PluginCredentials(cfg, service).value, cfg)
                       == registry.instance(service, PluginCredentials(cfg, service).value, cfg2))
  {
    if service in registry.services {
      SameBesideCoversRead(cfg, cfg2, "plugin_credentials", Table(map[]));
      assert PluginCredentials(cfg, service) == PluginCredentials(cfg2, service);
    } else if service == "imx.to" {
      ThumbIgnoresCovers(cfg, cfg2, "imx_cover", true, "imx_thumb", ImxCoverSize);
      SameBesideCoversRead(cfg, cfg2, "api_key", Null);
      SameBesideCoversRead(cfg, cfg2, "imx_format", Text("Fixed Width"));
      SameBesideCoversRead(cfg, cfg2, "gallery_id", Null);
    } else if service == "pixhost.to" {
      SameBesideCoversRead(cfg, cfg2, "pix_content", Null);
      SameBesideCoversRead(cfg, cfg2, "pix_thumb", Null);
    } else if service == "turboimagehost" {
      ThumbIgnoresCovers(cfg, cfg2, "turbo_cover", false, "turbo_thumb", TurboCoverSize);
      SameBesideCoversRead(cfg, cfg2, "turbo_content", Null);
      SameBesideCoversRead(cfg, cfg2, "turbo_gal_id", Null);
    } else if service == "vipr.im" {
      ThumbIgnoresCovers(cfg, cfg2, "vipr_cover", false, "vipr_thumb", ViprCoverSize);
      SameBesideCoversRead(cfg, cfg2, "vipr_meta", Table(map[]));
      SameBesideCoversRead(cfg, cfg2, "vipr_gal_id", Null);
    }
  }

  /** Each built-in service gets its own uploader; a later file always gets
      the configured thumbnail size; the group's first file gets the cover
      size exactly when the service's cover flag is set (for pixhost the
      flag itself is passed on as `is_cov`). */
  lemma CoverChoice(service: string, file: string, isFirst: bool, cfg: Dict, pixData: Dict, registry: Registry)
    requires service !in registry.services
    requires CreateUploader(service, file, isFirst, cfg, pixData, registry).Ok?
    ensures var u := CreateUploader(service, file, isFirst, cfg, pixData, registry).value;
            && (service == "imx.to" <==> u.Some? && u.value.Imx?)
            && (service == "pixhost.to" <==> u.Some? && u.value.Pixhost?)
            && (service == "turboimagehost" <==> u.Some? && u.value.Turbo?)
            && (service == "vipr.im" <==> u.Some? && u.value.Vipr?)
    ensures var u := CreateUploader(service, file, isFirst, cfg, pixData, registry).value;
            match u
            case None => service !in BuiltIn
            case Some(Imx(_, _, thumb, _, _)) =>
              if isFirst && Truthy(cfg["imx_cover"]) then thumb == Text(ImxCoverSize) else thumb == cfg["imx_thumb"]
            case Some(Pixhost(_, _, thumb, _, _, cover)) =>
              thumb == cfg["pix_thumb"] && Truthy(cover) == (isFirst && Truthy(cfg["pix_cover"]))
            case Some(Turbo(_, _, _, thumb, _)) =>
              if isFirst && Truthy(Get(cfg, "turbo_cover", Null)) then thumb == Text(TurboCoverSize) else thumb == cfg["turbo_thumb"]
            case Some(Vipr(_, _, thumb, _)) =>
              if isFirst && Truthy(Get(cfg, "vipr_cover", Null)) then thumb == Text(ViprCoverSize) else thumb == cfg["vipr_thumb"]
            case Some(Plugin(_, _, _)) => false
  {
  }

  /** Adding settings never breaks a creation of a built-in uploader that
      worked, as long as `vipr_meta` is not added. For a plugin, as long as
      `plugin_credentials` is not added, the credentials stay the same and
      the outcome depends only on whether the plugin builds an instance
      from the larger configuration. */
  lemma MoreSettingsNeverHurt(service: string, file: string, isFirst: bool, cfg: Dict, cfg2: Dict, pixData: Dict, registry: Registry)
    requires SubDict(cfg, cfg2)
    requires CreateUploader(service, file, isFirst, cfg, pixData, registry).Ok?
    requires "vipr_meta" in cfg2 ==> "vipr_meta" in cfg
    ensures service !in registry.services ==>
              && CreateUploader(service, file, isFirst, cfg2, pixData, registry).Ok?
              && CreateUploader(service, file, isFirst, cfg2, pixData, registry).value.Some?
                 == CreateUploader(service, file, isFirst, cfg, pixData, registry).value.Some?
    ensures service in registry.services && ("plugin_credentials" in cfg2 ==> "plugin_credentials" in cfg) ==>
              && PluginCredentials(cfg2, service) == PluginCredentials(cfg, service)
              && (CreateUploader(service, file, isFirst, cfg2, pixData, registry).Ok?
                  <==> registry.instance(service, PluginCredentials(cfg, service).value, cfg2).Some?)
  {
    if service in registry.services {
      if "plugin_credentials" in cfg2 ==> "plugin_credentials" in cfg {
        assert Get(cfg2, "plugin_credentials", Table(map[])) == Get(cfg, "plugin_credentials", Table(map[]));
      }
    } else {
      if service == "imx.to" {
        assert CreateImx(file, isFirst, cfg).Ok?;
      } else if service == "pixhost.to" {
        assert CreatePixhost(file, isFirst, cfg, pixData).Ok?;
      } else if service == "turboimagehost" {
        assert CreateTurbo(file, isFirst, cfg).Ok?;
      } else if service == "vipr.im" {
        assert CreateVipr(file, isFirst, cfg).Ok?;
        assert Get(cfg2, "vipr_meta", Table(map[])) == Get(cfg, "vipr_meta", Table(map[]));
      }
    }
  }

  /** Every built-in service yields an uploader from a configuration holding
      all of its settings (and, for vipr, a dictionary or nothing under
      `vipr_meta`). */
  lemma CompleteSettingsYieldUploader(service: string, file: string, isFirst: bool, cfg: Dict, pixData: Dict, registry: Registry)
    requires service in BuiltIn && service !in registry.services
    requires forall k :: k in RequiredKeys ==> k in cfg
    requires "vipr_meta" in cfg ==> cfg["vipr_meta"].Table?
    ensures CreateUploader(service, file, isFirst, cfg, pixData, registry).Ok?
    ensures CreateUploader(service, file, isFirst, cfg, pixData, registry).value.Some?
  {
    assert "api_key" in cfg && "imx_cover" in cfg && "imx_thumb" in cfg && "pix_cover" in cfg;
    assert "pix_content" in cfg && "pix_thumb" in cfg && "turbo_thumb" in cfg && "turbo_content" in cfg;
    assert "turbo_gal_id" in cfg && "vipr_thumb" in cfg && "vipr_gal_id" in cfg;
  }
}
