/** `MediaService.delete`: the path a client sends may carry the `/static/`
    or `static/` prefix of its URL; the service removes one such prefix and
    deletes the media row of the remaining storage path once the file is
    gone. `unquote`, the file system itself and the other pass-through methods
    of the service are not part of this model; what `unlink` did is an input. */
module MediaServices {
  import opened Common
  import opened Text
  import opened Media
  import opened Responses

  /** What `Path.unlink()` did: removed the file, raised `FileNotFoundError`
      (which `delete` swallows), or raised any other `OSError`, such as
      `IsADirectoryError` for the `static` directory itself or
      `PermissionError`. */
  datatype UnlinkOutcome = Unlinked | FileMissing | UnlinkFailed

  const StaticPrefix: string := "/static/"
  const RelativeStaticPrefix: string := "static/"

  /** The path `delete` works on after its `if`/`elif`. */
  function NormalizeRelPath(p: string): (r: string)
    ensures |r| <= |p| && r == p[|p| - |r|..]
  {
    if StartsWith(p, StaticPrefix) then p[|StaticPrefix|..]
    else if StartsWith(p, RelativeStaticPrefix) then p[|RelativeStaticPrefix|..]
    else p
  }

  /** A path under `/static/` loses exactly that prefix, even when what
      follows starts with `static/` again. */
  lemma StripsStaticPrefix(s: string)
    ensures NormalizeRelPath(StaticPrefix + s) == s
  {
    assert (StaticPrefix + s)[..|StaticPrefix|] == StaticPrefix;
  }

  /** A path under `static/` loses exactly that prefix. */
  lemma StripsRelativeStaticPrefix(s: string)
    ensures NormalizeRelPath(RelativeStaticPrefix + s) == s
  {
    assert (RelativeStaticPrefix + s)[..|RelativeStaticPrefix|] == RelativeStaticPrefix;
    assert (RelativeStaticPrefix + s)[0] != StaticPrefix[0];
  }

  /** Only one prefix goes: `/static/static/x` becomes `static/x`. */
  lemma RemovesOnePrefixOnly(s: string)
    ensures NormalizeRelPath(StaticPrefix + RelativeStaticPrefix + s) == RelativeStaticPrefix + s
  {
    assert StaticPrefix + RelativeStaticPrefix + s == StaticPrefix + (RelativeStaticPrefix + s);
    StripsStaticPrefix(RelativeStaticPrefix + s);
  }

  /** A path with neither prefix is left as it is. */
  lemma KeepsOtherPaths(p: string)
    requires !StartsWith(p, StaticPrefix) && !StartsWith(p, RelativeStaticPrefix)
    ensures NormalizeRelPath(p) == p
  {
  }

  /** The service, over its media table. */
  class MediaService {
    const media: MediaModel

    constructor (media: MediaModel)
      ensures this.media == media
    {
      this.media := media;
    }

    /** `delete(rel_path, locale)`: strips one static prefix and unlinks the
        file under `static/`. When the file was removed or was not there, it
        deletes the media row of the normalised path and redirects to the
        admin page; any other failure of `unlink` escapes before the row is
        touched. */
    method Delete(relPath: string, locale: string, unlink: UnlinkOutcome) returns (resp: Response)
      requires media.Valid()
      modifies media
      ensures media.Valid()
      ensures media.nextId == old(media.nextId)
      ensures unlink == UnlinkFailed ==> resp == ServerError && media.rows == old(media.rows)
      ensures unlink != UnlinkFailed ==>
                && resp == Redirect(AdminPageEndpoint, None, locale)
                && media.rows == Reject(old(media.rows), PathOf, NormalizeRelPath(relPath))
    {
      var path := relPath;
      if StartsWith(path, StaticPrefix) {
        path := path[|StaticPrefix|..];
      } else if StartsWith(path, RelativeStaticPrefix) {
        path := path[|RelativeStaticPrefix|..];
      }
      if unlink == UnlinkFailed {
        return ServerError;
      }
      var deleted := media.Delete(path);
      resp := Redirect(AdminPageEndpoint, None, locale);
    }
  }
}
