/** The article records the news API returns, as the bot reads them (a JSON object per article). */
module Articles {

  datatype Option<T> = None | Some(value: T)

  /** What `record.get(key)` finds: no such key, the key mapped to null, or a value. */
  datatype Slot<T> = Absent | Null | Val(v: T)

  /**
   * One entry of an article's `concepts` list: either not a JSON object, or an
   * object whose `label` object may hold an English (`eng`) label.
   */
  datatype Concept = NonDict | Dict(eng: Slot<string>)

  /** The keys of an article record the bot reads; other keys are carried along by the API but never read. */
  datatype Article = Article(
    uri: Slot<string>,
    title: Slot<string>,
    body: Slot<string>,
    url: Slot<string>,
    permalink: Slot<string>,
    concepts: Slot<seq<Concept>>)

  /** Python truthiness of a string value: present, not null, not empty. */
  predicate Truthy(s: Slot<string>) {
    s.Val? && s.v != ""
  }

  /** `str(record.get(key, ""))`: an absent key reads as "", an explicit null as "None". */
  function Str(s: Slot<string>): string {
    match s
    case Absent => ""
    case Null => "None"
    case Val(v) => v
  }

  /** `record.get(key) or default`. */
  function OrElse(s: Slot<string>, default: string): (r: string)
    ensures Truthy(s) ==> r == s.v
    ensures !Truthy(s) ==> r == default
  {
    if Truthy(s) then s.v else default
  }

  /** `article.get("concepts", []) or []`. */
  function ConceptList(a: Article): seq<Concept> {
    if a.concepts.Val? then a.concepts.v else []
  }

  /** `concept.get("label", {}).get("eng") if isinstance(concept, dict) else None`. */
  function EnglishLabel(c: Concept): Slot<string> {
    if c.Dict? then c.eng else Absent
  }

  /** The truthy English labels of the concepts, in order. */
  function Labels(cs: seq<Concept>): (ls: seq<string>)
    ensures |ls| <= |cs|
    ensures forall k :: 0 <= k < |ls| ==> ls[k] != ""
  {
    if cs == [] then []
    else (if Truthy(EnglishLabel(cs[0])) then [EnglishLabel(cs[0]).v] else []) + Labels(cs[1..])
  }

  lemma {:induction false} LabelsConcat(xs: seq<Concept>, ys: seq<Concept>)
    ensures Labels(xs + ys) == Labels(xs) + Labels(ys)
  {
    if xs != [] {
      assert (xs + ys)[1..] == xs[1..] + ys;
      LabelsConcat(xs[1..], ys);
    } else {
      assert xs + ys == ys;
    }
  }
}
