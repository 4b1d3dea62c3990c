/** Evidence spans and packs: all the generator is allowed to see. */
module Evidence {
  import opened Wrappers

  datatype EvidenceSpan = EvidenceSpan(
    marker: string, nodeId: string, nodeType: string, sourceSpanId: string, sourceEpisodeId: string, fileId: string,
    title: Option<string>, citation: Option<string>, place: Option<string>, court: Option<string>, date: Option<string>,
    excerpt: string, charStart: int, charEnd: int, tier: nat, score: real, private: bool)

  datatype Conflict = Conflict(topic: string, tiers: seq<nat>, description: string, markers: seq<string>)

  datatype EvidencePack = EvidencePack(spans: seq<EvidenceSpan>, conflicts: seq<Conflict>, insufficient: bool)

  function PackMarkers(spans: seq<EvidenceSpan>): set<string> {
    set s | s in spans :: s.marker
  }
}
