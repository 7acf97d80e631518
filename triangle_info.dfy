/** Mesh data: a vertex's attributes and a triangle of three vertices. */
module TriangleData {
  import opened Linalg

  /** Position in model space, texture coordinate and normal; copied by value. */
  datatype VertexInfo = VertexInfo(vertex: Vec3, uv: Vec2, normal: Vec3)

  datatype TriangleInfo = TriangleInfo(vertex0: VertexInfo, vertex1: VertexInfo, vertex2: VertexInfo) {
    /** `get_index`: the vertex of ordinal 0, 1 or 2; any other ordinal panics, so callers must not pass one. */
    function GetIndex(index: int): (v: VertexInfo)
      requires 0 <= index <= 2
      ensures v == [vertex0, vertex1, vertex2][index]
    {
      match index
      case 0 => vertex0
      case 1 => vertex1
      case 2 => vertex2
    }

    /** The three texture coordinates, by ordinal. */
    function Uvs(): (uvs: seq<Vec2>)
      ensures |uvs| == 3
      ensures forall i :: 0 <= i < 3 ==> uvs[i] == GetIndex(i).uv
    {
      [vertex0.uv, vertex1.uv, vertex2.uv]
    }
  }
}
