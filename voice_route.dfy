/** The voice upload route: it stores one journal entry under the journal
    directory, in a file named after the moment it arrives. */
module VoiceRoute {
  import opened Wrappers
  import opened Text
  import opened TimestampPaths
  import Files

  const NoContent := "No content provided"

  datatype VoiceReply =
    | Written(timestamp: string, filePath: string)
    | Refused(error: string)

  /** Handles one upload. `content` is the request's `content` field, `t` the
      arrival time, and `writeError` the message of a failing `mkdir` or
      `writeFile`, if one fails. */
  method Upload(dir: Files.Directory, content: Option<string>, basePath: string, t: Instant,
                writeError: Option<string>)
    returns (reply: VoiceReply)
    requires ValidInstant(t)
    modifies dir
    ensures content.None? || content.value == "" ==>
      reply == Refused(NoContent) && dir.files == old(dir.files) && dir.stamps == old(dir.stamps)
    ensures content.Some? && content.value != "" && writeError.Some? ==>
      reply == Refused(writeError.value) && dir.files == old(dir.files) && dir.stamps == old(dir.stamps)
    ensures content.Some? && content.value != "" && writeError.None? ==>
      var path := JoinPath(basePath, JoinPath(DatePart(t), TimeName(t) + ".md"));
      reply == Written(IsoString(t), path) &&
      dir.files == old(dir.files)[path := content.value] && dir.stamps == old(dir.stamps) - {path}
    ensures reply.Written? ==> RouteEntryPath(basePath, reply.timestamp) == Some(reply.filePath)
  {
    if content.None? || content.value == "" {
      reply := Refused(NoContent);
    } else {
      EntryPathsAgree(basePath, t);
      var path := RouteEntryPath(basePath, IsoString(t)).value;
      if writeError.Some? {
        reply := Refused(writeError.value);
      } else {
        dir.WriteFile(path, content.value);
        reply := Written(IsoString(t), path);
      }
    }
  }
}
