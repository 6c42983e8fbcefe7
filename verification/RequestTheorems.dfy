/** What the downloader makes of every possible reply. */
module RequestTheorems {
  import opened Basics
  import opened Manifests
  import opened Requests

  ghost predicate Acceptable(h: HashFn, parse: Parser, root: Digest, bytes: Bytes) {
    && parse(bytes).Some?
    && var m := parse(bytes).value; m.root == root && RootConsistent(h, m) && Validate(m).Ok?
  }

  /** A manifest is taken exactly when one came, parses, has the root asked for, commits to its chunk
      list and validates; every other reply has its own error. */
  lemma GetManifestMeaning(h: HashFn, parse: Parser, root: Digest, reply: Reply)
    ensures GetManifest(h, parse, root, reply) ==
      if reply.Err? then Err(reply.error)
      else if !reply.value.ManifestReply? then Err(NetError.RequestFailed)
      else if reply.value.manifest.None? then Err(NoManifest)
      else if !Acceptable(h, parse, root, reply.value.manifest.value) then Err(BadManifest)
      else Ok(parse(reply.value.manifest.value).value)
  {
    hide RootConsistent, Validate;
  }

  lemma GetChunkMeaning(reply: Reply)
    ensures GetChunk(reply) ==
      if reply.Err? then Err(reply.error)
      else if reply.value.ChunkReply? then Ok(reply.value.chunk)
      else Err(NetError.RequestFailed)
  {
  }

  lemma GetSymbolsMeaning(reply: Reply)
    ensures GetSymbols(reply) ==
      if reply.Err? then Err(reply.error)
      else if reply.value.SymbolsReply? then Ok(reply.value.symbols)
      else Err(NetError.RequestFailed)
  {
  }
}
