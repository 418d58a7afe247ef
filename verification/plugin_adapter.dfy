/** `PluginUploaderAdapter` (modules/async_upload_manager.py): a plugin does
    the whole upload inside `get_request_params`, the adapter keeps what it
    returned, and `parse_response` hands that back whatever the response. */
module PluginAdapter {
  import opened Results

  /** What a plugin's `upload` returned; a result object is always truthy. */
  datatype UploadResult = UploadResult(imageUrl: string, thumbUrl: string)

  /** The adapter's state: the stored `_result` (`None` until an upload
      returned something). */
  datatype Adapter = Adapter(file: string, stored: Option<UploadResult>)

  /** The dummy request `get_request_params` answers with once the plugin
      has uploaded: a URL, an empty body and no headers. */
  datatype Request = Request(url: string, body: seq<int>, headers: map<string, string>)

  const DummyRequest: Request := Request("https://dummy.com", [], map[])

  datatype PluginError =
      /** The plugin's `upload` raised; the adapter logs and re-raises it. */
    | UploadRaised(message: string)
    | NoResultAvailable

  function NewAdapter(file: string): (a: Adapter)
    ensures a.stored.None?
  {
    Adapter(file, None)
  }

  /** `get_request_params`, given what `plugin.upload` did: returned a value
      (a result or `None`), or raised. */
  function GetRequestParams(a: Adapter, upload: Result<Option<UploadResult>, string>): (r: Result<(Adapter, Request), PluginError>)
    ensures upload.Ok? <==> r.Ok?
    ensures r.Ok? ==> r.value.0 == a.(stored := upload.value) && r.value.1 == DummyRequest
    ensures r.Err? ==> r.error == UploadRaised(upload.error)
  {
    match upload
    case Ok(result) => Ok((a.(stored := result), DummyRequest))
    case Err(message) => Err(UploadRaised(message))
  }

  /** `parse_response(response_data)`: the stored URLs, or an error. */
  function ParseResponse<R>(a: Adapter, response: R): (r: Result<(string, string), PluginError>)
    ensures r.Ok? <==> a.stored.Some?
    ensures r.Ok? ==> r.value == (a.stored.value.imageUrl, a.stored.value.thumbUrl)
    ensures r.Err? ==> r.error == NoResultAvailable
  {
    match a.stored
    case Some(res) => Ok((res.imageUrl, res.thumbUrl))
    case None => Err(NoResultAvailable)
  }

  /** After an upload that returned a result, parsing any response gives
      that result's URLs; after one that returned `None`, parsing fails. */
  lemma StoredResultRoundTrip<R>(file: string, result: Option<UploadResult>, response: R)
    ensures var step := GetRequestParams(NewAdapter(file), Ok(result));
            && step.Ok?
            && (result.Some? ==> ParseResponse(step.value.0, response) == Ok((result.value.imageUrl, result.value.thumbUrl)))
            && (result.None? ==> ParseResponse(step.value.0, response) == Err(NoResultAvailable))
  {
  }

  /** The response is ignored: every attempt of the retry loop parses to
      the same outcome. */
  lemma ParseIgnoresResponse<R>(a: Adapter, x: R, y: R)
    ensures ParseResponse(a, x) == ParseResponse(a, y)
  {
  }

  /** A fresh adapter has nothing to hand back. */
  lemma FreshAdapterFails<R>(file: string, response: R)
    ensures ParseResponse(NewAdapter(file), response) == Err(NoResultAvailable)
  {
  }
}
