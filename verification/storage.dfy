/**
 The remote side (a data backend holding chunk blobs and `<ID>.json`
 documents, and `db.json`) and the local staging directory, as plain maps.
 */
module Storage {
  import opened Types
  import opened Database

  type Store = map<string, Bytes>

  /** What downloading `db.json` yields: no such file, a database, or any other failure. */
  datatype DbState = NoDb | Present(db: Db) | Unreadable

  /** The backend: data files by name, documents by ID, and the database. */
  datatype Remote<E> = Remote(blobs: Store, docs: map<Id, Document<E>>, db: DbState)

  /** The staging directory: staged documents by file name and staged chunk files. */
  datatype Staging<E> = Staging(docs: map<string, Document<E>>, blobs: Store)
}
