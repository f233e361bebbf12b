/** Vocabulary shared by the two page scripts: optional values, what storage and
    attribute reads return, section layout boxes, and the two searches the
    active-link routines perform over them. */
module Dom {

  datatype Option<T> = None | Some(value: T)

  /** localStorage.getItem(key): the stored string, or null. */
  function Get(storage: map<string, string>, key: string): Option<string>
  {
    if key in storage then Some(storage[key]) else None
  }

  /** JavaScript `value || fallback` for a string-or-null value: null and "" are falsy. */
  function OrElse(value: Option<string>, fallback: string): (r: string)
    ensures r == fallback || (value == Some(r) && r != "")
    ensures value.Some? && value.value != "" ==> r == value.value
  {
    if value.Some? && value.value != "" then value.value else fallback
  }

  /** The attribute text setAttribute stores when handed a boolean. */
  function BoolText(b: bool): string
  {
    if b then "true" else "false"
  }

  /** A `section[id]` element: its id and its layout box (offsetTop, offsetHeight). */
  datatype Section = Section(id: string, top: int, height: int)

  /** The half-open interval [top, top + height) of the section holds pos. */
  predicate Contains(s: Section, pos: int)
  {
    s.top <= pos < s.top + s.height
  }

  /** The index of the last section, in document order, whose interval holds pos. */
  function LastContaining(sections: seq<Section>, pos: int): (r: Option<nat>)
    ensures r.Some? ==> r.value < |sections| && Contains(sections[r.value], pos)
    ensures r.Some? ==> forall j :: r.value < j < |sections| ==> !Contains(sections[j], pos)
    ensures r.None? ==> forall j :: 0 <= j < |sections| ==> !Contains(sections[j], pos)
  {
    if sections == [] then None
    else if Contains(sections[|sections| - 1], pos) then Some(|sections| - 1)
    else LastContaining(sections[..|sections| - 1], pos)
  }

  /** The index of the first href equal to target: what querySelector finds. */
  function FirstIndex(hrefs: seq<string>, target: string): (r: Option<nat>)
    ensures r.Some? ==> r.value < |hrefs| && hrefs[r.value] == target
    ensures r.Some? ==> forall j :: 0 <= j < r.value ==> hrefs[j] != target
    ensures r.None? <==> target !in hrefs
  {
    if hrefs == [] then None
    else if hrefs[0] == target then Some(0)
    else match FirstIndex(hrefs[1..], target)
      case None => None
      case Some(k) => Some(k + 1)
  }
}
