/**
 * The node entries of a recipe and their normalisation: an ingredient or
 * activity given as a bare string becomes a record whose id and label are
 * that string; any other entry is passed through as it is.
 */
module Recipe {

  /** An entry as the recipe document gives it: a bare string, or a record of string fields. */
  datatype Entry = Str(text: string) | Record(fields: map<string, string>)

  /**
   * The `ingredients` or `activities` value of a recipe: a list of entries, or
   * a mapping from key to entry. A mapping comes from a Python dict, so its keys
   * are distinct; `Keyed` lists them in the dict's iteration order and relies on
   * that rather than enforcing it.
   */
  datatype Section = Listed(items: seq<Entry>) | Keyed(entries: seq<(string, Entry)>)

  /** `normalize(act)` */
  function Normalize(e: Entry): (r: Entry)
    ensures r.Record?
    ensures e.Str? ==> ("id" in r.fields && "label" in r.fields &&
                        r.fields["id"] == e.text && r.fields["label"] == e.text)
    ensures e.Record? ==> r == e
  {
    match e
    case Str(s) => Record(map["id" := s, "label" := s])
    case Record(_) => e
  }

  /** Normalising twice is normalising once. */
  lemma NormalizeIdempotent(e: Entry)
    ensures Normalize(Normalize(e)) == Normalize(e)
  {
  }

  /** A record without a label keeps lacking one: nothing defaults it to the id. */
  lemma NormalizeKeepsMissingLabel(e: Entry)
    requires e.Record? && "label" !in e.fields
    ensures "label" !in Normalize(e).fields
  {
  }

  /** What `for ing in section` visits: the items of a list, the keys of a mapping. */
  function Visited(sec: Section): (r: seq<Entry>)
    ensures |r| == match sec case Listed(items) => |items| case Keyed(entries) => |entries|
  {
    match sec
    case Listed(items) => items
    case Keyed(entries) => seq(|entries|, i requires 0 <= i < |entries| => Str(entries[i].0))
  }

  /** `[normalize(ing) for ing in section]` */
  function NormalizeNodes(sec: Section): (r: seq<Entry>)
    ensures |r| == |Visited(sec)|
    ensures forall i :: 0 <= i < |r| ==> r[i].Record?
    ensures sec.Listed? ==> forall i :: 0 <= i < |r| ==> r[i] == Normalize(sec.items[i])
    ensures sec.Keyed? ==> forall i :: 0 <= i < |r| ==>
      r[i].fields == map["id" := sec.entries[i].0, "label" := sec.entries[i].0]
  {
    var v := Visited(sec);
    seq(|v|, i requires 0 <= i < |v| => Normalize(v[i]))
  }

  /** Normalising the node list is idempotent as well. */
  lemma NormalizeNodesIdempotent(sec: Section)
    ensures Listed(NormalizeNodes(Listed(NormalizeNodes(sec)))) == Listed(NormalizeNodes(sec))
  {
  }
}
