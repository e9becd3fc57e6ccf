/** app/utils/kg_utils.py: rendering a graph path as text, and the centrality
    placeholder. */
module KgUtils {
  import opened Wrappers
  import opened Text

  /** One hop of a path as the helper reads it: a dictionary whose `start`,
      `relation` and `target` keys may each be missing. */
  datatype PathItem = PathItem(start: Option<string>, relation: Option<string>, target: Option<string>)

  const SegmentSeparator: string := " | "

  /** `f"{start} --[{relation}]--> {target}"` with '?' for a missing start or
      target and the empty string for a missing relation. */
  function Segment(item: PathItem): (r: string)
  {
    item.start.GetOr("?") + " --[" + item.relation.GetOr("") + "]--> " + item.target.GetOr("?")
  }

  /** The segments of `path`, one per item and in order. */
  function Segments(path: seq<PathItem>): (r: seq<string>)
    ensures |r| == |path|
    ensures forall i :: 0 <= i < |path| ==> r[i] == Segment(path[i])
  {
    seq(|path|, i requires 0 <= i < |path| => Segment(path[i]))
  }

  /** `format_kg_path`: the segments of the path joined by " | ", and "" for an
      empty path. */
  method FormatKgPath(path: seq<PathItem>) returns (r: string)
    ensures path == [] ==> r == ""
    ensures r == Join(Segments(path), SegmentSeparator)
  {
    if path == [] {
      return "";
    }
    var readable: seq<string> := [];
    for i := 0 to |path|
      invariant readable == Segments(path[..i])
    {
      readable := readable + [Segment(path[i])];
    }
    assert path[..|path|] == path;
    r := Join(readable, SegmentSeparator);
  }

  /** Every rendered segment shows its relation between the start and the
      target: the start (or '?') comes first and the target (or '?') last. */
  lemma SegmentShape(item: PathItem)
    ensures item.start.GetOr("?") <= Segment(item)
    ensures Segment(item)[|Segment(item)| - |item.target.GetOr("?")|..] == item.target.GetOr("?")
    ensures IsSubstring(" --[" + item.relation.GetOr("") + "]--> ", Segment(item))
  {
    var s := item.start.GetOr("?");
    var mid := " --[" + item.relation.GetOr("") + "]--> ";
    var t := item.target.GetOr("?");
    assert Segment(item) == s + mid + t;
    assert OccursAt(mid, Segment(item), |s|);
    IsSubstringIff(mid, Segment(item));
  }

  /** `calculate_graph_centrality`: a placeholder that scores every node 0.5,
      whatever its name; the graph driver argument is not consulted. */
  function CalculateGraphCentrality(nodeName: string): (score: real)
    ensures 0.0 < score < 1.0
  {
    0.5
  }

  /** Every node gets the same score. */
  lemma CentralityIgnoresNode(a: string, b: string)
    ensures CalculateGraphCentrality(a) == CalculateGraphCentrality(b) == 0.5
  {
  }
}
