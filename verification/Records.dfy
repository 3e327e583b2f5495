/** The records that the adapter hands to the service, with local keys of type `K`. */
module Records {
  import opened Wrappers
  import opened Keys

  /** The kind of relation from a block to a terminator that it is control-dependent on. */
  const CONTROL_DEPENDENCE := "llvm.control-dependence"

  const CONTAINS := "llvm.contains"
  const OPERAND := "llvm.operand"
  const REFERENCES := "llvm.references-global"
  const SUCCESSOR := "llvm.cfg-successor"
  const CALLS := "llvm.calls"

  datatype Record<K> =
    | Header(name: string)
    | Failure(message: string)
    | Entity(kind: string, local: K, ordinal: Option<int>, name: string, opcode: Option<string>, text: string)
    | Relation(kind: string, src: K, dst: K, ordinal: Option<int>, attributes: map<string, string>)
    | Source(entity: K, inlineDepth: nat, place: string)

  /** A record as it leaves the emitter: structured keys become text. */
  function Emitted(r: Record<Local>): Record<string> {
    match r
    case Header(name) => Header(name)
    case Failure(message) => Failure(message)
    case Entity(kind, local, ordinal, name, opcode, text) => Entity(kind, Render(local), ordinal, name, opcode, text)
    case Relation(kind, src, dst, ordinal, attributes) => Relation(kind, Render(src), Render(dst), ordinal, attributes)
    case Source(entity, depth, place) => Source(Render(entity), depth, place)
  }

  function EmittedAll(rs: seq<Record<Local>>): (r: seq<Record<string>>)
    ensures |r| == |rs| && forall i :: 0 <= i < |rs| ==> r[i] == Emitted(rs[i])
  {
    seq(|rs|, i requires 0 <= i < |rs| => Emitted(rs[i]))
  }

  /** `local` is the key of one of the entity records. */
  predicate Declares<K(==)>(rs: seq<Record<K>>, local: K) {
    exists i :: 0 <= i < |rs| && rs[i].Entity? && rs[i].local == local
  }

  /** No two entity records share a key. */
  predicate Unambiguous<K(==)>(rs: seq<Record<K>>) {
    forall i, j :: 0 <= i < j < |rs| && rs[i].Entity? && rs[j].Entity? ==> rs[i].local != rs[j].local
  }
}
