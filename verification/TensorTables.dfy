/** The session's table of named tensors (engine/framework/tensor_table.cc). */
module TensorTables {
  import opened Outcomes

  /** A column in one piece, or the files of a bucketed column, one per bucket. */
  datatype Tensor = Plain(rows: seq<int>) | Bucketed(files: seq<seq<int>>)

  type Table = map<string, Tensor>

  class TensorTable {
    var tensors: Table

    constructor ()
      ensures tensors == map[]
    {
      tensors := map[];
    }

    method AddTensor(name: string, tensor: Tensor) returns (r: Result<()>)
      modifies this
      ensures r.Ok? <==> name !in old(tensors)
      ensures tensors == if r.Ok? then old(tensors)[name := tensor] else old(tensors)
    {
      if name in tensors {
        return Err("tensor already exists");
      }
      tensors := tensors[name := tensor];
      return Ok(());
    }

    method AddOrUpdateTensor(name: string, tensor: Tensor)
      modifies this
      ensures tensors == old(tensors)[name := tensor]
    {
      tensors := tensors[name := tensor];
    }

    method RemoveTensor(name: string)
      modifies this
      ensures tensors == old(tensors) - {name}
    {
      tensors := tensors - {name};
    }
  }
}
