/** PlayList: a title and an append-only, ordered list of element identifiers of any kind. */
module PlayLists {
  import opened AudioElements

  datatype PlayList = PlayList(title: string, uuid: Uuid, elements: seq<Uuid>)

  /** The full constructor keeps the given id and element list. */
  function NewPlayListWithElements(title: string, id: Uuid, elements: seq<Uuid>): (p: PlayList)
    ensures p.title == title && p.uuid == id && p.elements == elements
  {
    PlayList(title, id, elements)
  }

  /** PlayList(title): a fresh identifier (given here as `newId`) and no elements. */
  function NewPlayList(title: string, newId: Uuid): (p: PlayList)
    ensures p.title == title && p.uuid == newId && p.elements == []
  {
    PlayList(title, newId, [])
  }

  /** PlayList() delegates to PlayList(""). */
  function DefaultPlayList(newId: Uuid): (p: PlayList)
    ensures p == NewPlayList("", newId)
    ensures p.title == "" && p.elements == []
  {
    NewPlayList("", newId)
  }

  /** addElement appends the id, with no duplicate or kind check. */
  function AddElement(p: PlayList, element: Uuid): (r: PlayList)
    ensures |r.elements| == |p.elements| + 1
    ensures r.elements[..|p.elements|] == p.elements && r.elements[|p.elements|] == element
    ensures multiset(r.elements)[element] == multiset(p.elements)[element] + 1
    ensures r.title == p.title && r.uuid == p.uuid
  {
    p.(elements := p.elements + [element])
  }
}
