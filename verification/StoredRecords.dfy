/** The records that the store of a table holds (engine/include/store/vector_store.h). */
module StoredRecords {
  import opened Ranking

  datatype Data = Data(id: Id, vector: Vector, content: string)

  type Records = map<Id, Data>
}
