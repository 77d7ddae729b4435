/**
 * The API's module-level state and its route handlers (app.py): the
 * `database` dictionary and the file `dados.txt`, changed in place by
 * `create_event`, `update_event` and `delete_event`, read by `list_events`.
 */
module Registry {
  import opened Events
  import opened Decimal
  import opened Mirror
  import opened Table

  const CreatedMessage := "Evento criado com sucesso"
  const NotFoundDetail := "Evento não encontrado"

  function UpdatedMessage(id: int): string
  {
    "Evento com ID " + DecimalText(id) + " atualizado com sucesso"
  }

  function DeletedMessage(id: int): string
  {
    "Evento com ID " + DecimalText(id) + " deletado com sucesso"
  }

  /** The JSON body `create_event` answers with. */
  datatype CreateReply = CreateReply(message: string, eventId: int, event: Event)

  /** The answer of update and delete: a message, or the HTTP error raised. */
  datatype Reply = Ok(message: string) | HttpError(status: int, detail: string)

  const NotFoundReply := HttpError(404, NotFoundDetail)

  class Registry {
    /** The events by id (app.py:21). */
    var database: Table
    /** What the file dados.txt holds. */
    var file: string

    /** A fresh process: an empty registry; the file keeps whatever it held before. */
    constructor (existing: string)
      ensures database == map[] && file == existing
    {
      database := map[];
      file := existing;
    }

    /** `file.write(text)` on the file opened for appending. */
    method Write(text: string)
      modifies this`file
      ensures file == old(file) + text
    {
      file := file + text;
    }

    /** `save_to_txt`: truncates the file, then appends the block of one event line by line. */
    method SaveToTxt(e: Event, id: int)
      modifies this`file
      ensures file == RecordText(id, e)
    {
      file := "";
      Write(IdLabel + DecimalText(id) + "\n");
      // `"" + x == x`: lets the later writes line up with the block's concatenation
      assert file == IdLabel + DecimalText(id) + "\n";
      Write(TitleLabel + e.title + "\n");
      Write(DescriptionLabel + e.description + "\n");
      Write(DateLabel + e.date + "\n");
      Write(TimeLabel + e.time + "\n");
      Write(LocationLabel + e.location + "\n");
      Write(CostLabel + e.cost + "\n");
      Write("\n");
      RecordTextIsSevenLinesAndBlank(id, e);
    }

    /** `create_event`: stores `e` under the size of the registry plus one and mirrors it. */
    method CreateEvent(e: Event) returns (reply: CreateReply)
      modifies this
      ensures reply == CreateReply(CreatedMessage, old(|database|) + 1, e)
      ensures database == AfterCreate(old(database), e)
      ensures file == RecordText(reply.eventId, e)
    {
      var id := |database| + 1;
      database := database[id := e];
      SaveToTxt(e, id);
      reply := CreateReply(CreatedMessage, id, e);
    }

    /** `list_events`: the whole registry, unchanged. */
    method ListEvents() returns (events: Table)
      ensures events == database
    {
      events := database;
    }

    /** `update_event`: replaces the event stored under `id`, or answers 404 and changes nothing. */
    method UpdateEvent(id: int, e: Event) returns (reply: Reply)
      modifies this
      ensures reply == (if id in old(database) then Ok(UpdatedMessage(id)) else NotFoundReply)
      ensures AfterUpdate(old(database), id, e).Success? ==> database == AfterUpdate(old(database), id, e).value
      ensures id in old(database) ==> file == RecordText(id, e)
      ensures id !in old(database) ==> database == old(database) && file == old(file)
    {
      if id !in database {
        reply := NotFoundReply;
        return;
      }
      database := database[id := e];
      SaveToTxt(e, id);
      reply := Ok(UpdatedMessage(id));
    }

    /** `delete_event`: mirrors the event about to go, then removes it; or answers 404 and
        changes nothing. */
    method DeleteEvent(id: int) returns (reply: Reply)
      modifies this
      ensures reply == (if id in old(database) then Ok(DeletedMessage(id)) else NotFoundReply)
      ensures AfterDelete(old(database), id).Success? ==> database == AfterDelete(old(database), id).value
      ensures id in old(database) ==> file == RecordText(id, old(database)[id])
      ensures id !in old(database) ==> database == old(database) && file == old(file)
    {
      if id !in database {
        reply := NotFoundReply;
        return;
      }
      var event := database[id];
      SaveToTxt(event, id);
      database := database - {id};
      reply := Ok(DeletedMessage(id));
    }
  }

  /** The id-reuse history driven through the handlers: create, create, delete 1, create.
      The third create is answered with id 2, and the registry then holds only the third
      event: the second one is gone although it was never deleted. */
  method OverwriteTrace(a: Event, b: Event, c: Event) returns (ids: seq<int>, final: Table)
    ensures ids == [1, 2, 2]
    ensures final == map[2 := c]
  {
    CreateOnEmpty(a);
    CreateOnSizeOne(1, a, b);
    DeleteFirstOfTwo(a, b);
    CreateOnSizeOne(2, b, c);
    assert map[2 := b][2 := c] == map[2 := c];
    SizeOne(1, a);
    SizeOne(2, b);
    var r := new Registry("");
    var first := r.CreateEvent(a);
    assert r.database == map[1 := a];
    var second := r.CreateEvent(b);
    assert r.database == map[1 := a, 2 := b];
    var gone := r.DeleteEvent(1);
    assert r.database == map[2 := b];
    var third := r.CreateEvent(c);
    assert r.database == map[2 := c];
    ids := [first.eventId, second.eventId, third.eventId];
    final := r.ListEvents();
  }
}
