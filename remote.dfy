/** The remote data service, reduced to the calls the script issues and the
    replies it can get back. Replies are supplied by the caller of the model. */
module Remote {
  import opened Values

  /** One remote call, as recorded in a session's call log. */
  datatype Call =
    | GetMaxId(table: string)                 // rpc('get_max_id', {table_name})
    | FixSequence(table: string, newVal: int) // rpc('fix_sequence', {table_name, new_val})
    | SelectAreas                             // table("area").select("id, name").order("name")
    | SelectCategories(areaId: int)           // table("category")...eq("area_id", areaId)...
    | UpsertEvent(record: Record)             // table("event").upsert(record, on_conflict="id")
    | InsertEvent(record: Record)             // table("event").insert(record)

  /** What `get_max_id` does: it raises, or it returns `data` (an integer or null). */
  datatype MaxIdReply = MaxIdRaised | MaxIdData(data: Option<int>)

  /** What an upsert or insert does: it returns `result.data` (a list of rows) or raises
      an exception whose `str(e)` is `message`. */
  datatype Reply = Rows(rows: seq<Record>) | Raises(message: string)
}
