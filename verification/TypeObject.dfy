/** A type in memory: its attributes are a linked list, and stand for the sequence of a definition. */
module TypeObject {
  import opened Bytes
  import opened Json
  import opened Types
  import opened LinkedList

  class TypeObj {
    var name: seq<byte>
    var attrList: List<Attr>

    constructor ()
      ensures name == [] && fresh(attrList) && attrList.Valid() && attrList.nodes == []
    {
      name := [];
      attrList := new List();
    }

    /** The definition that the object stands for. */
    ghost function Def(): TypeDef
      reads this, attrList, attrList.nodes
    {
      TypeDef(name, attrList.Contents())
    }
  }

  /** type_cpy: the name is copied, the attributes are taken over, and the source is left without any. */
  method TypeCpy(dest: TypeObj, src: TypeObj)
    requires dest != src && src.attrList.Valid()
    modifies dest, src.attrList, src.attrList.nodes
    ensures fresh(dest.attrList) && dest.attrList.Valid() && src.attrList.Valid()
    ensures dest.Def() == TypeDef(StrCopy(old(src.name)), old(src.Def().attrs))
    ensures src.Def() == TypeDef(old(src.name), [])
  {
    ghost var attrs := src.attrList.Contents();
    dest.name := StrCopy(src.name);
    dest.attrList := new List();
    MoveAll(dest.attrList, src.attrList);
    assert dest.attrList.Contents() == attrs;
  }
}
