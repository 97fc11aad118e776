/** The operations that the write-ahead log records (engine/proto/replica.proto). */
module LogEntries {
  import opened Ranking

  datatype Metric = L2 | Cosine

  datatype TableConfig<F> =
    | HnswTable(dim: int, m: nat, m0: nat, efConstruction: nat, ml: F, metric: Metric, cacheSize: nat)
    | FlatTable(dim: int, metric: Metric, cacheSize: nat)

  /** A logged operation; `F` is the type of vector components. */
  datatype Entry<F> =
    | Insert(id: Id, vector: seq<F>, content: string)
    | Remove(id: Id)
    | Create(config: TableConfig<F>)
    | Drop
}
