/**
 * Extraction of the HTTP method and path from the request envelope, with the
 * deployment-stage prefix removed from the path.
 */
module Normalize {
  import opened PyStr
  import opened Workouts

  /**
   * Removes a leading `/<stage>` from `path` when `path` starts with
   * `/<stage>/`, maps the bare `/<stage>` to `/`, and otherwise leaves `path`
   * alone. An empty stage never rewrites.
   */
  function StripStage(path: string, stage: string): (r: string)
    ensures stage == "" ==> r == path
    ensures stage != "" && StartsWith(path, "/" + stage + "/") ==> "/" + stage + r == path && StartsWith(r, "/")
    ensures stage != "" && path == "/" + stage ==> r == "/"
    ensures stage != "" && !StartsWith(path, "/" + stage + "/") && path != "/" + stage ==> r == path
  {
    if stage != "" then
      var prefix := "/" + stage;
      if StartsWith(path, prefix + "/") then
        assert path == prefix + path[|prefix|..] by { assert path[..|prefix|] == prefix; }
        assert path[|prefix|..][..1] == path[..|prefix| + 1][|prefix|..];
        path[|prefix|..]
      else if path == prefix then "/"
      else path
    else path
  }

  /**
   * `get_method_and_path`: the method, or "" when absent; the path from
   * `rawPath`, falling back to `path` when `rawPath` is absent or empty, or ""
   * when both are, then stage-stripped when a non-empty stage is declared.
   */
  function MethodAndPath(e: Event): (r: (string, string))
    ensures r.0 == e.httpMethod.GetOr("")
    ensures r.1 == StripStage(RawPath(e), e.stage.GetOr(""))
  {
    var path := RawPath(e);
    match e.stage
    case Some(stage) => (e.httpMethod.GetOr(""), StripStage(path, stage))
    case None => (e.httpMethod.GetOr(""), path)
  }

  /** `event.get("rawPath", "") or event.get("path", "")` */
  function RawPath(e: Event): (p: string)
    ensures e.rawPath.Some? && e.rawPath.value != "" ==> p == e.rawPath.value
    ensures (e.rawPath.None? || e.rawPath.value == "") ==> p == e.path.GetOr("")
  {
    if e.rawPath.Some? && e.rawPath.value != "" then e.rawPath.value else e.path.GetOr("")
  }

  /** Prefixing a path that starts with `/` by `/<stage>` and normalising gives the path back. */
  lemma StripStageInverse(stage: string, q: string)
    requires stage != "" && StartsWith(q, "/")
    ensures StripStage("/" + stage + q, stage) == q
  {
  }

  /** A stage-prefixed `/health` reaches the router as `/health`; a bare stage path as `/`. */
  lemma StagePrefixedHealth(e: Event, stage: string)
    requires e.stage == Some(stage) && stage != ""
    ensures e.rawPath == Some("/" + stage + "/health") ==> MethodAndPath(e).1 == "/health"
    ensures e.rawPath == Some("/" + stage) ==> MethodAndPath(e).1 == "/"
  {
  }
}
