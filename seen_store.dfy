/**
 * The persisted seen-set: a JSON document that maps each account login to the
 * list of message numbers stored by its last write (mails_ids.json).
 */
module SeenStore {
  import opened Wrappers

  /** The JSON object `{ "<login>": [<id>, ...], ... }`. */
  type Document = map<string, seq<int>>

  /** `load` guarded by FileNotFoundError: an absent file reads as the empty document. */
  function Loaded(file: Option<Document>): (doc: Document)
    ensures file.None? ==> doc == map[]
    ensures file.Some? ==> doc == file.value
  {
    file.GetOr(map[])
  }

  /** `content[login]` guarded by KeyError: a login with no entry reads as the empty list. */
  function Entry(doc: Document, login: string): (ids: seq<int>)
    ensures login in doc ==> ids == doc[login]
    ensures login !in doc ==> ids == []
  {
    if login in doc then doc[login] else []
  }

  /** `content[login] = ids`: replaces or inserts one entry and keeps every other one. */
  function Put(doc: Document, login: string, ids: seq<int>): (doc': Document)
    ensures doc'.Keys == doc.Keys + {login}
    ensures doc'[login] == ids
    ensures forall other :: other in doc && other != login ==> doc'[other] == doc[other]
  {
    doc[login := ids]
  }

  /** Read after write: the written login reads back what was put, every other login reads as before. */
  lemma EntryAfterPut(doc: Document, login: string, ids: seq<int>, other: string)
    ensures Entry(Put(doc, login, ids), login) == ids
    ensures other != login ==> Entry(Put(doc, login, ids), other) == Entry(doc, other)
  {
  }

  /** The file `mails_ids.json`, shared by every mailbox of one run; `None` while it does not exist. */
  class Store {
    var file: Option<Document>

    constructor (file: Option<Document>)
      ensures this.file == file
    {
      this.file := file;
    }

    /** Reads the whole document. */
    function Content(): (doc: Document)
      reads this
      ensures file.None? ==> doc == map[]
      ensures file.Some? ==> doc == file.value
    {
      Loaded(file)
    }

    /** `dump`: overwrites the whole document, creating the file if needed. */
    method Dump(content: Document)
      modifies this
      ensures file == Some(content)
    {
      file := Some(content);
    }
  }
}
