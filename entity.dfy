/** The persistent entities: a todo with its set of attachments, an
    attachment with its back-reference to the todo, a person and the login
    account (user) linked to it. */
module Entity {
  import opened Basics

  /** The authorities an account can hold. */
  datatype Role = USER | ADMIN

  // ---------------------------------------------------------------------
  // Attachment

  /** The fields the generated `equals`/`hashCode` of an attachment compare:
      every field but the `todo` back-reference (the byte array by
      content). Two attachments are equal exactly when their keys are. */
  datatype AttachmentKey = AttachmentKey(id: Option<int>, fileName: Option<string>, fileType: Option<string>, data: seq<byte>)

  class Attachment {
    // No operation of the application changes these four after construction.
    const id: Option<int>
    const fileName: Option<string>
    const fileType: Option<string>
    const data: seq<byte>
    var todo: Todo?

    /** `new Attachment(fileName, fileType, data)`: no id yet, no todo. */
    constructor (fileName: Option<string>, fileType: Option<string>, data: seq<byte>)
      ensures Key() == AttachmentKey(None, fileName, fileType, data)
      ensures todo == null
    {
      this.id := None;
      this.fileName := fileName;
      this.fileType := fileType;
      this.data := data;
      this.todo := null;
    }

    /** What equality and hashing of this attachment look at. */
    function Key(): AttachmentKey {
      AttachmentKey(id, fileName, fileType, data)
    }

    /** `setTodo`: points the back-reference at `todo` and, for a non-null
        todo, adds this attachment to its set (a set already holding an
        equal attachment is left as it is). `setTodo(null)` touches no set. */
    method SetTodo(todo: Todo?)
      requires todo != null ==> todo.Valid()
      modifies this`todo, (if todo == null then {} else {todo})`attachments
      ensures this.todo == todo
      ensures todo != null ==> todo.Valid() && todo.attachments == Added(old(todo.attachments), this)
    {
      this.todo := todo;
      if todo != null {
        todo.attachments := Added(todo.attachments, this);
      }
    }
  }

  // ---------------------------------------------------------------------
  // The attachment set of a todo

  /** `HashSet.add`: the attachment goes in unless an equal one is there. */
  function Added(attachments: map<AttachmentKey, Attachment>, a: Attachment): (r: map<AttachmentKey, Attachment>)
    ensures r.Keys == attachments.Keys + {a.Key()}
    ensures forall k :: k in attachments ==> r[k] == attachments[k]
    ensures a.Key() !in attachments ==> r[a.Key()] == a
  {
    if a.Key() in attachments then attachments else attachments[a.Key() := a]
  }

  /** `HashSet.remove`: whatever attachment equals `a` goes. */
  function Removed(attachments: map<AttachmentKey, Attachment>, a: Attachment): (r: map<AttachmentKey, Attachment>)
    ensures r.Keys == attachments.Keys - {a.Key()}
    ensures forall k :: k in r ==> r[k] == attachments[k]
  {
    attachments - {a.Key()}
  }

  /** Every stored attachment sits under its own key. */
  ghost predicate WellKeyed(attachments: map<AttachmentKey, Attachment>) {
    forall k :: k in attachments ==> attachments[k].Key() == k
  }

  /** Adding an attachment equal to one already present keeps the set as it
      was: the set holds one of them, the one added first. Equality compares
      id, file name, file type and data only: `b` may point at any todo. */
  lemma AddEqualTwiceKeepsOne(attachments: map<AttachmentKey, Attachment>, a: Attachment, b: Attachment)
    requires a.id == b.id && a.fileName == b.fileName && a.fileType == b.fileType && a.data == b.data
    ensures a.Key() !in attachments ==> Added(Added(attachments, a), b)[a.Key()] == a
    ensures Removed(Added(attachments, a), b) == Removed(attachments, a)
    ensures Added(Added(attachments, a), b) == Added(attachments, a)
    ensures |Added(Added(attachments, a), b)| <= |attachments| + 1
  {
    assert a.Key() == b.Key();
    var once := Added(attachments, a);
    assert once.Keys == attachments.Keys + {a.Key()};
    assert |once.Keys| <= |attachments.Keys| + |{a.Key()}|;
    assert Removed(once, b).Keys == Removed(attachments, a).Keys;
  }

  /** Removing what was just added, when nothing equal was there before, gives
      back the original set. */
  lemma RemoveUndoesAdd(attachments: map<AttachmentKey, Attachment>, a: Attachment)
    requires a.Key() !in attachments
    ensures Removed(Added(attachments, a), a) == attachments
  {
    var r := Removed(Added(attachments, a), a);
    assert r.Keys == attachments.Keys;
  }

  /** The operations keep every attachment under its own key. */
  lemma WellKeyedPreserved(attachments: map<AttachmentKey, Attachment>, a: Attachment)
    requires WellKeyed(attachments)
    ensures WellKeyed(Added(attachments, a))
    ensures WellKeyed(Removed(attachments, a))
  {
  }

  // ---------------------------------------------------------------------
  // Todo

  class Todo {
    var id: Option<int>
    var title: Option<string>
    var description: Option<string>
    var completed: bool
    var createdAt: Option<LocalDateTime>
    var updatedAt: Option<LocalDateTime>
    var dueDate: Option<LocalDateTime>
    var person: Person?
    /** The `HashSet<Attachment>`: at most one attachment per equality key. */
    var attachments: map<AttachmentKey, Attachment>

    ghost predicate Valid()
      reads this
    {
      WellKeyed(attachments)
    }

    /** The four-argument constructor: the given fields, no id, no person,
        no timestamps, an empty attachment set. */
    constructor (title: Option<string>, description: Option<string>, completed: bool, dueDate: Option<LocalDateTime>)
      ensures Valid()
      ensures this.title == title && this.description == description
      ensures this.completed == completed && this.dueDate == dueDate
      ensures id == None && person == null && attachments == map[]
      ensures createdAt == None && updatedAt == None
    {
      this.id := None;
      this.title := title;
      this.description := description;
      this.completed := completed;
      this.createdAt := None;
      this.updatedAt := None;
      this.dueDate := dueDate;
      this.person := null;
      this.attachments := map[];
    }

    /** The three-argument constructor: as the other, with no due date. */
    constructor WithoutDueDate(title: Option<string>, description: Option<string>, completed: bool)
      ensures Valid()
      ensures this.title == title && this.description == description && this.completed == completed
      ensures dueDate == None
      ensures id == None && person == null && attachments == map[]
      ensures createdAt == None && updatedAt == None
    {
      this.id := None;
      this.title := title;
      this.description := description;
      this.completed := completed;
      this.createdAt := None;
      this.updatedAt := None;
      this.dueDate := None;
      this.person := null;
      this.attachments := map[];
    }

    /** `addAttachment`: the attachment (or an equal one already there) is in
        the set, every other attachment stays, and its back-reference is this
        todo. The back-reference sync adds nothing more. */
    method AddAttachment(attachment: Attachment)
      requires Valid()
      modifies this`attachments, attachment`todo
      ensures Valid()
      ensures attachments == Added(old(attachments), attachment)
      ensures attachment.Key() in attachments
      ensures attachment.todo == this
    {
      WellKeyedPreserved(attachments, attachment);
      attachments := Added(attachments, attachment);
      attachment.SetTodo(this);
      assert Added(Added(old(attachments), attachment), attachment) == Added(old(attachments), attachment);
    }

    /** `removeAttachment`: nothing equal to the attachment is left in the
        set, every other attachment stays, and its back-reference is cleared. */
    method RemoveAttachment(attachment: Attachment)
      requires Valid()
      modifies this`attachments, attachment`todo
      ensures Valid()
      ensures attachments == Removed(old(attachments), attachment)
      ensures attachment.Key() !in attachments
      ensures attachment.todo == null
    {
      WellKeyedPreserved(attachments, attachment);
      attachments := Removed(attachments, attachment);
      attachment.SetTodo(null);
    }
  }

  // ---------------------------------------------------------------------
  // Person and User

  class Person {
    var id: Option<int>
    var name: Option<string>
    var email: Option<string>
    var user: User?

    /** `new Person(name, email)`: no id, no account. */
    constructor (name: Option<string>, email: Option<string>)
      ensures this.name == name && this.email == email
      ensures id == None && user == null
    {
      this.id := None;
      this.name := name;
      this.email := email;
      this.user := null;
    }
  }

  class User {
    /** The primary key; it is never updated. */
    const username: string
    var password: string
    var roles: set<Role>
    var expired: bool
    var person: Person?

    /** `new User(username, password)`: no roles, not expired, no person. */
    constructor (username: string, password: string)
      ensures this.username == username && this.password == password
      ensures roles == {} && !expired && person == null
    {
      this.username := username;
      this.password := password;
      this.roles := {};
      this.expired := false;
      this.person := null;
    }

    /** `addRole`: the role is held afterwards, no other role changes (adding
        a held role changes nothing). */
    method AddRole(role: Role)
      modifies this`roles
      ensures roles == old(roles) + {role}
    {
      roles := roles + {role};
    }

    /** `removeRole`: the role is not held afterwards, no other role changes
        (removing a role not held changes nothing). */
    method RemoveRole(role: Role)
      modifies this`roles
      ensures roles == old(roles) - {role}
    {
      roles := roles - {role};
    }
  }
}
