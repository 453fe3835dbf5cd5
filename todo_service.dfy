/** The todo service: converts between todo records and entities and keeps
    the todos in a repository, modelled as a map from id to entity. The
    person repository is read only, to resolve a record's person id. Every
    public operation runs in one transaction, so an operation that fails
    leaves the repository as it was. */
module TodoService {
  import opened Basics
  import opened Entity
  import opened Dto

  const TODO_NOT_FOUND: string := "Todo not found"
  const PERSON_NOT_FOUND: string := "Person not found"

  // ---------------------------------------------------------------------
  // Between attachment records and attachment entities

  /** The entity an attachment record becomes: `new Attachment(fileName,
      fileType, data)`, so the record's id is dropped. */
  function NewAttachmentKey(dto: AttachmentDto): AttachmentKey {
    AttachmentKey(None, dto.fileName, dto.fileType, dto.data)
  }

  /** The attachment set built by adding one new entity per record, in order:
      one per distinct record content, so identical records give a single
      attachment. */
  function AttachmentKeysOf(dtos: seq<AttachmentDto>): set<AttachmentKey> {
    if dtos == [] then {}
    else AttachmentKeysOf(dtos[..|dtos| - 1]) + {NewAttachmentKey(dtos[|dtos| - 1])}
  }

  /** An attachment is in the built set exactly when some record describes
      it, and there are never more attachments than records. */
  lemma {:induction false} AttachmentKeysOfMembers(dtos: seq<AttachmentDto>, k: AttachmentKey)
    ensures k in AttachmentKeysOf(dtos) <==> exists d :: d in dtos && NewAttachmentKey(d) == k
    ensures |AttachmentKeysOf(dtos)| <= |dtos|
  {
    if dtos != [] {
      var front := dtos[..|dtos| - 1];
      AttachmentKeysOfMembers(front, k);
      assert dtos == front + [dtos[|dtos| - 1]];
    }
  }

  /** A record repeating one already in the list adds no attachment: the
      set keeps the first of two equal attachments. */
  lemma RepeatedRecordStoredOnce(dtos: seq<AttachmentDto>, d: AttachmentDto)
    requires d in dtos
    ensures AttachmentKeysOf(dtos + [d]) == AttachmentKeysOf(dtos)
    ensures |AttachmentKeysOf(dtos + [d])| <= |dtos|
  {
    assert (dtos + [d])[..|dtos|] == dtos;
    AttachmentKeysOfMembers(dtos, NewAttachmentKey(d));
  }

  /** The record `convertToDto` makes of a stored attachment. */
  function AttachmentDtoOf(key: AttachmentKey): AttachmentDto {
    AttachmentDto(key.id, key.fileName, key.fileType, key.data)
  }

  /** The equality key of the attachment a record describes. */
  function StoredKey(dto: AttachmentDto): AttachmentKey {
    AttachmentKey(dto.id, dto.fileName, dto.fileType, dto.data)
  }

  /** The attachment set `update` leaves: replaced by the records' when the
      list is present and not empty, kept otherwise. */
  function UpdatedAttachmentKeys(current: set<AttachmentKey>, dtos: Option<seq<AttachmentDto>>): set<AttachmentKey> {
    if dtos.Some? && |dtos.value| > 0 then AttachmentKeysOf(dtos.value) else current
  }

  /** An absent or empty list keeps the current attachments; a non-empty
      one replaces them all, so nothing of the old set survives that is not
      also described by a record. */
  lemma UpdatedAttachmentKeysCases(current: set<AttachmentKey>, dtos: Option<seq<AttachmentDto>>)
    ensures dtos.None? || dtos.value == [] ==> UpdatedAttachmentKeys(current, dtos) == current
    ensures dtos.Some? && dtos.value != [] ==>
      forall k :: k in UpdatedAttachmentKeys(current, dtos) <==> exists d :: d in dtos.value && NewAttachmentKey(d) == k
    ensures dtos.Some? && dtos.value != [] ==>
      forall k :: k in UpdatedAttachmentKeys(current, dtos) ==> k.id.None?
  {
    if dtos.Some? && dtos.value != [] {
      forall k
        ensures k in UpdatedAttachmentKeys(current, dtos) <==> exists d :: d in dtos.value && NewAttachmentKey(d) == k
      {
        AttachmentKeysOfMembers(dtos.value, k);
      }
    }
  }

  /** The person a record's `personId` designates (null for none). */
  function PersonFor(persons: map<int, Person>, personId: Option<int>): (person: Person?)
    requires personId.Some? ==> personId.value in persons
    ensures person == null <==> personId.None?
    ensures person == null || person in persons.Values
  {
    if personId.None? then null else persons[personId.value]
  }

  /** `convertToDto`: the record shows the todo's fields, its person's id
      (null exactly when it has no person) and one attachment record per
      attachment in the set, in the set's (unspecified) iteration order. */
  predicate Describes(dto: TodoDto, todo: Todo)
    reads todo, todo.person
  {
    && dto.id == todo.id && dto.title == todo.title && dto.description == todo.description
    && dto.completed == todo.completed && dto.createdAt == todo.createdAt
    && dto.updatedAt == todo.updatedAt && dto.dueDate == todo.dueDate
    && dto.personId == (if todo.person == null then None else todo.person.id)
    && dto.numberOfAttachments == |todo.attachments|
    && dto.attachments.Some?
    && |dto.attachments.value| == |todo.attachments|
    && (forall i :: 0 <= i < |dto.attachments.value| ==> StoredKey(dto.attachments.value[i]) in todo.attachments)
    && (forall k :: k in todo.attachments ==> AttachmentDtoOf(k) in dto.attachments.value)
  }

  /** A todo just built from a record: the record's fields, the person it
      designates and one attachment per distinct attachment record. */
  predicate BuiltFrom(todo: Todo, dto: TodoDto, persons: map<int, Person>)
    requires dto.personId.Some? ==> dto.personId.value in persons
    reads todo`title, todo`description, todo`completed, todo`dueDate, todo`createdAt, todo`updatedAt,
          todo`person, todo`attachments
  {
    && todo.title == dto.title && todo.description == dto.description
    && todo.completed == dto.completed && todo.dueDate == dto.dueDate
    && todo.createdAt == None && todo.updatedAt == None
    && todo.person == PersonFor(persons, dto.personId)
    && todo.attachments.Keys == AttachmentKeysOf(if dto.attachments.Some? then dto.attachments.value else [])
  }

  /** Every person of the repository has been saved, and is stored under
      the id it carries. */
  ghost predicate StoredUnderOwnId(persons: map<int, Person>)
    reads persons.Values
  {
    forall p :: p in persons.Values ==> p.id.Some? && p.id.value in persons && persons[p.id.value] == p
  }

  class TodoServiceImpl {
    /** The todo repository. */
    var todos: map<int, Todo>
    /** The person repository, as this service sees it. */
    var persons: map<int, Person>
    /** The identity the database gives the next todo saved. */
    var nextId: int

    /** Every todo is stored under its own id, below the next one, and
        refers to no person or to a stored one; every person, having come
        from the repository, is stored under its own id. */
    ghost predicate Valid()
      reads this, todos.Values, persons.Values
    {
      && (forall k :: k in todos ==> todos[k].Valid() && todos[k].id == Some(k) && k < nextId)
      && (forall k :: k in todos ==> todos[k].person == null || todos[k].person in persons.Values)
      && StoredUnderOwnId(persons)
    }

    constructor (persons: map<int, Person>)
      requires StoredUnderOwnId(persons)
      ensures Valid()
      ensures todos == map[] && this.persons == persons
    {
      todos := map[];
      this.persons := persons;
      nextId := 1;
    }

    /** The loop both `convertToEntity` and `update` run: one new attachment
        per record, added with `addAttachment`. */
    method AddAttachmentsFrom(todo: Todo, dtos: seq<AttachmentDto>)
      requires todo.Valid()
      modifies todo`attachments
      ensures todo.Valid()
      ensures todo.attachments.Keys == old(todo.attachments.Keys) + AttachmentKeysOf(dtos)
      ensures forall k :: k in old(todo.attachments) ==> todo.attachments[k] == old(todo.attachments[k])
      ensures forall k :: k in todo.attachments && k !in old(todo.attachments) ==>
                fresh(todo.attachments[k]) && todo.attachments[k].todo == todo
    {
      for i := 0 to |dtos|
        invariant todo.Valid()
        invariant todo.attachments.Keys == old(todo.attachments.Keys) + AttachmentKeysOf(dtos[..i])
        invariant forall k :: k in old(todo.attachments) ==> todo.attachments[k] == old(todo.attachments[k])
        invariant forall k :: k in todo.attachments && k !in old(todo.attachments) ==>
                    fresh(todo.attachments[k]) && todo.attachments[k].todo == todo
      {
        var attachment := new Attachment(dtos[i].fileName, dtos[i].fileType, dtos[i].data);
        todo.AddAttachment(attachment);
        assert dtos[..i + 1][..i] == dtos[..i];
      }
      assert dtos[..|dtos|] == dtos;
    }

    /** The setters `update` applies to the stored todo. */
    method Overwrite(todo: Todo, dto: TodoDto, person: Person?)
      requires todo.Valid()
      modifies todo
      ensures todo.Valid()
      ensures todo.id == old(todo.id) && todo.createdAt == old(todo.createdAt) && todo.updatedAt == old(todo.updatedAt)
      ensures todo.title == dto.title && todo.description == dto.description
      ensures todo.completed == dto.completed && todo.dueDate == dto.dueDate
      ensures todo.person == person
      ensures todo.attachments.Keys == UpdatedAttachmentKeys(old(todo.attachments.Keys), dto.attachments)
      ensures dto.attachments.None? || dto.attachments.value == [] ==> todo.attachments == old(todo.attachments)
    {
      todo.title := dto.title;
      todo.description := dto.description;
      todo.completed := dto.completed;
      todo.dueDate := dto.dueDate;
      todo.person := person;
      if dto.attachments.Some? && |dto.attachments.value| > 0 {
        todo.attachments := map[];
        AddAttachmentsFrom(todo, dto.attachments.value);
      }
    }

    /** `convertToDto`: the attachment records are collected in whatever
        order the set yields them. */
    method ConvertToDto(todo: Todo) returns (dto: TodoDto)
      requires todo.Valid()
      requires todo.person != null ==> todo.person.id.Some?
      ensures Describes(dto, todo)
      ensures dto.personId.None? <==> todo.person == null
    {
      var remaining := todo.attachments.Keys;
      var records: seq<AttachmentDto> := [];
      while remaining != {}
        invariant remaining <= todo.attachments.Keys
        invariant |records| + |remaining| == |todo.attachments|
        invariant forall i :: 0 <= i < |records| ==> StoredKey(records[i]) in todo.attachments && StoredKey(records[i]) !in remaining
        invariant forall k :: k in todo.attachments && k !in remaining ==> AttachmentDtoOf(k) in records
        decreases |remaining|
      {
        var k :| k in remaining;
        var attachment := todo.attachments[k];
        records := records + [AttachmentDto(attachment.id, attachment.fileName, attachment.fileType, attachment.data)];
        remaining := remaining - {k};
      }
      dto := TodoDto(todo.id, todo.title, todo.description, todo.completed, todo.createdAt, todo.updatedAt,
                     todo.dueDate, if todo.person != null then todo.person.id else None,
                     |todo.attachments|, Some(records));
    }

    /** `convertToEntity`: fails with "Person not found" for an unknown
        person id; otherwise a new todo built from the record. */
    method ConvertToEntity(dto: TodoDto) returns (r: Result<Todo, string>)
      ensures r.Err? <==> dto.personId.Some? && dto.personId.value !in persons
      ensures r.Err? ==> r.error == PERSON_NOT_FOUND
      ensures r.Ok? ==> fresh(r.value) && r.value.Valid() && r.value.id == None && BuiltFrom(r.value, dto, persons)
    {
      var todo := new Todo(dto.title, dto.description, dto.completed, dto.dueDate);
      if dto.personId.Some? {
        if dto.personId.value !in persons {
          return Err(PERSON_NOT_FOUND);
        }
        todo.person := persons[dto.personId.value];
      }
      if dto.attachments.Some? && |dto.attachments.value| > 0 {
        AddAttachmentsFrom(todo, dto.attachments.value);
      }
      r := Ok(todo);
    }

    /** The repository's `save` of a new todo: it gets the next id. */
    method Save(todo: Todo)
      requires Valid() && todo.Valid() && todo !in todos.Values
      requires todo.person == null || todo.person in persons.Values
      modifies this`todos, this`nextId, todo`id
      ensures Valid()
      ensures todo.id == Some(old(nextId))
      ensures todos == old(todos)[old(nextId) := todo] && nextId == old(nextId) + 1
      ensures old(nextId) !in old(todos)
    {
      todo.id := Some(nextId);
      todos := todos[nextId := todo];
      nextId := nextId + 1;
    }

    /** `create`: the new todo is saved under a fresh id; nothing is saved
        when the person id is unknown. */
    method Create(dto: TodoDto) returns (r: Result<TodoDto, string>)
      requires Valid()
      modifies this
      ensures Valid()
      ensures persons == old(persons)
      ensures r.Err? <==> dto.personId.Some? && dto.personId.value !in persons
      ensures r.Err? ==> r.error == PERSON_NOT_FOUND && todos == old(todos) && nextId == old(nextId)
      ensures r.Ok? ==>
        && old(nextId) !in old(todos)
        && old(nextId) in todos
        && todos == old(todos)[old(nextId) := todos[old(nextId)]]
        && fresh(todos[old(nextId)])
        && todos[old(nextId)].id == Some(old(nextId))
        && BuiltFrom(todos[old(nextId)], dto, persons)
        && Describes(r.value, todos[old(nextId)])
    {
      var entity := ConvertToEntity(dto);
      if entity.Err? {
        return Err(entity.error);
      }
      var todo := entity.value;
      Save(todo);
      var saved := ConvertToDto(todo);
      r := Ok(saved);
    }

    /** `findById`. */
    method FindById(id: int) returns (r: Result<TodoDto, string>)
      requires Valid()
      ensures id !in todos ==> r == Err(TODO_NOT_FOUND)
      ensures id in todos ==> r.Ok? && Describes(r.value, todos[id])
      ensures id in todos ==> (r.value.personId.None? <==> todos[id].person == null)
    {
      if id !in todos {
        return Err(TODO_NOT_FOUND);
      }
      var dto := ConvertToDto(todos[id]);
      r := Ok(dto);
    }

    /** `update`: overwrites title, description, completion and due date,
        sets or clears the person, and replaces the attachments only for a
        present, non-empty list. An unknown todo id or person id fails and
        (the transaction being rolled back) changes nothing. */
    method Update(id: int, dto: TodoDto) returns (r: Result<TodoDto, string>)
      requires Valid()
      modifies if id in todos then {todos[id]} else {}
      ensures Valid()
      ensures todos == old(todos) && persons == old(persons) && nextId == old(nextId)
      ensures id !in todos ==> r == Err(TODO_NOT_FOUND)
      ensures id in todos && dto.personId.Some? && dto.personId.value !in persons ==>
        r == Err(PERSON_NOT_FOUND) && unchanged(todos[id])
      ensures id in todos && (dto.personId.Some? ==> dto.personId.value in persons) ==>
        && r.Ok?
        && var todo := todos[id];
        && todo.id == old(todo.id) && todo.createdAt == old(todo.createdAt) && todo.updatedAt == old(todo.updatedAt)
        && todo.title == dto.title && todo.description == dto.description
        && todo.completed == dto.completed && todo.dueDate == dto.dueDate
        && todo.person == PersonFor(persons, dto.personId)
        && todo.attachments.Keys == UpdatedAttachmentKeys(old(todo.attachments.Keys), dto.attachments)
        && (dto.attachments.None? || dto.attachments.value == [] ==> todo.attachments == old(todo.attachments))
        && Describes(r.value, todo)
    {
      if id !in todos {
        return Err(TODO_NOT_FOUND);
      }
      var existing := todos[id];
      if dto.personId.Some? && dto.personId.value !in persons {
        return Err(PERSON_NOT_FOUND);
      }
      Overwrite(existing, dto, PersonFor(persons, dto.personId));
      var updated := ConvertToDto(existing);
      r := Ok(updated);
    }
  }
}
