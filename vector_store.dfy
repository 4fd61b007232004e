/**
 * The vector index the system writes chunks to and searches: a collection of
 * records keyed by id. Each record holds an embedding and a flat metadata
 * object whose values are strings or numbers.
 */
module VectorStore {
  import opened Types

  datatype MetaValue = Str(s: string) | Num(n: int)

  type Metadata = map<string, MetaValue>

  datatype IndexRecord = IndexRecord(id: string, values: Vector, metadata: Metadata)

  class VectorIndex {
    var records: map<string, IndexRecord>

    constructor()
      ensures records == map[]
    {
      records := map[];
    }

    /** An upsert the service accepted: the record replaces any earlier record with its id. */
    method Upsert(record: IndexRecord)
      modifies this
      ensures records == old(records)[record.id := record]
    {
      records := records[record.id := record];
    }
  }
}
