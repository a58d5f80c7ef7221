/**
  The values the layout size resolver works on: layout items (a tree),
  resolved sizes and the map from item key to size.

  Only the fields the resolver reads are modelled. A field that the item may
  leave out is an `Option`; the boolean flags are modelled by the value a
  missing flag behaves as (`visible` defaults to true, the others to false).
*/
module LayoutTypes {

  datatype Option<+T> = None | Some(value: T)

  datatype Result<+T, +E> = Ok(value: T) | Err(error: E)

  /** How a container stacks its children. An item may declare no direction. */
  datatype Direction = Row | Column

  /** The two dimensions the resolver treats alike. */
  datatype Axis = Width | Height

  datatype Size = Size(width: int, height: int) {

    function Get(axis: Axis): int {
      match axis
      case Width => width
      case Height => height
    }

    /** This size with the dimension on `axis` replaced by `v`. */
    function With(axis: Axis, v: int): (r: Size)
      ensures r.Get(axis) == v
      ensures forall other: Axis :: other != axis ==> r.Get(other) == Get(other)
    {
      match axis
      case Width => this.(width := v)
      case Height => this.(height := v)
    }
  }

  /** The optional list of children of an item; a present list, even an empty one, makes a container. */
  datatype Children = NoChildren | ChildList(items: seq<LayoutItem>)

  /** A node of the layout tree. */
  datatype LayoutItem = LayoutItem(
    key: string,
    direction: Option<Direction>,
    width: Option<int>,
    height: Option<int>,
    flexible: bool,
    visible: bool,
    resizableRight: bool,
    resizableBottom: bool,
    children: Children)
  {
    /** The size this item declares on `axis`, if any. */
    function Declared(axis: Axis): Option<int> {
      match axis
      case Width => width
      case Height => height
    }

    predicate IsContainer() {
      children.ChildList?
    }
  }

  /** The resolver's output: item key to resolved size. */
  type SizeMap = map<string, Size>
}
