/** Reading the bounded head of a file that a preview parses. */
module Previews {
  import opened Common
  import opened Streams

  const MAX_PREVIEW_BYTES := 1_048_576

  /** The head of the source, however many bytes each read returns, and whether more follows it. */
  method ReadPrefix(source: ByteSource) returns (r: Result<(Bytes, bool), ErrorCode>)
    requires source.Valid() && source.Position() == 0
    modifies source.Changes()
    ensures source.Releasable()
    ensures r.Ok? ==>
              && source.Valid() && source.Content() == old(source.Content())
              && r.value.0 == source.Content()[..Min(|source.Content()|, MAX_PREVIEW_BYTES)]
              && (r.value.1 <==> |source.Content()| > MAX_PREVIEW_BYTES)
    ensures r.Err? ==> source.Troubled()
  {
    hide ByteSource.Troubled;
    hide ByteSource.Valid, ByteSource.Content, ByteSource.Position, ByteSource.Releasable;
    ghost var content := source.Content();
    var data: Bytes := [];
    source.ValidIsReleasable();
    while |data| <= MAX_PREVIEW_BYTES
      invariant source.Valid() && source.Releasable() && source.Content() == content
      invariant |data| == source.Position() <= |content| && data == content[..|data|]
      invariant |data| <= MAX_PREVIEW_BYTES + 1
    {
      var chunk := source.Pull(MAX_PREVIEW_BYTES + 1 - |data|);
      if chunk.Err? {
        return Err(chunk.error);
      }
      if chunk.value == [] {
        break;
      }
      assert data + chunk.value == content[..|data| + |chunk.value|];
      data := data + chunk.value;
    }
    var atLimit := |data| > MAX_PREVIEW_BYTES;
    r := Ok((data[..Min(|data|, MAX_PREVIEW_BYTES)], atLimit));
  }
}
