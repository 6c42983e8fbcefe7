/** What a downloader makes of a peer's replies (crates/np2ptp-net/src/lib.rs). */
module Requests {
  import opened Basics
  import opened EventLoops
  import opened Manifests
  import opened StoreSpec

  datatype NetError =
    | RequestFailed
    | NoManifest
    | BadManifest
    | MissingChunk(hash: Digest)
    | BadChunk
    | NoProviders
    | StoreFailed(cause: StoreError)

  type Reply = Result<Response, NetError>
  /** The manifest file format, as an arbitrary parser. */
  type Parser = Bytes -> Option<Manifest>

  /** A manifest is taken only if it is the one asked for and its own lists agree. */
  function GetManifest(h: HashFn, parse: Parser, root: Digest, reply: Reply): (r: Result<Manifest, NetError>)
    ensures r.Ok? ==> r.value.root == root && RootConsistent(h, r.value) && Validate(r.value).Ok?
  {
    match reply
    case Err(e) => Err(e)
    case Ok(ManifestReply(Some(bytes))) =>
      (match parse(bytes)
       case None => Err(BadManifest)
       case Some(m) =>
         if m.root != root || !RootConsistent(h, m) then Err(BadManifest)
         else if Validate(m).Err? then Err(BadManifest)
         else Ok(m))
    case Ok(ManifestReply(None)) => Err(NoManifest)
    case Ok(_) => Err(NetError.RequestFailed)
  }

  function GetChunk(reply: Reply): Result<Option<Bytes>, NetError> {
    match reply
    case Err(e) => Err(e)
    case Ok(ChunkReply(chunk)) => Ok(chunk)
    case Ok(_) => Err(NetError.RequestFailed)
  }

  function GetSymbols(reply: Reply): Result<seq<Bytes>, NetError> {
    match reply
    case Err(e) => Err(e)
    case Ok(SymbolsReply(symbols)) => Ok(symbols)
    case Ok(_) => Err(NetError.RequestFailed)
  }
}
