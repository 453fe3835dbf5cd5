/** The person service: registration of a person together with its login
    account, and the updates of a person and of its account. The person
    repository is a map from id to entity, the user repository a map from
    username to account; the password encoder is a given function. Every
    operation runs in one transaction. */
module PersonService {
  import opened Basics
  import opened Entity
  import opened Dto

  const EMAIL_EXISTS: string := "Email already exists"
  const USERNAME_EXISTS: string := "Username already exists"
  const PERSON_NOT_FOUND: string := "Person not found"

  class PersonServiceImpl {
    /** The person repository. */
    var persons: map<int, Person>
    /** The user repository, keyed by the username (its primary key). */
    var users: map<string, User>
    /** The identity the database gives the next person saved. */
    var nextId: int
    /** `PasswordEncoder.encode`. */
    const encode: string -> string

    /** Each person is stored under its own id, and the account linked to a
        stored person is the one the user repository holds for its
        username. */
    ghost predicate Valid()
      reads this, persons.Values
    {
      forall k :: k in persons ==>
        && persons[k].id == Some(k) && k < nextId
        && (persons[k].user != null ==> persons[k].user.username in users && users[persons[k].user.username] == persons[k].user)
    }

    constructor (encode: string -> string)
      ensures Valid()
      ensures persons == map[] && users == map[] && this.encode == encode
    {
      persons := map[];
      users := map[];
      nextId := 1;
      this.encode := encode;
    }

    /** `existsByEmail`. */
    predicate EmailTaken(email: Option<string>)
      reads this, persons.Values
    {
      exists k :: k in persons && persons[k].email == email
    }

    /** No two stored persons share an e-mail (the column is unique). */
    ghost predicate EmailsUnique()
      reads this, persons.Values
    {
      forall k, l :: k in persons && l in persons && k != l ==> persons[k].email != persons[l].email
    }

    /** The account linked to the person stored under `id`, as a frame. */
    function AccountOf(id: int): set<User>
      reads this, if id in persons then {persons[id]} else {}
    {
      if id in persons && persons[id].user != null then {persons[id].user} else {}
    }

    /** `create`: a taken e-mail fails first, then a taken username; on
        either failure nothing is saved. Otherwise a new person with the
        given name and e-mail and a new account holding the encoded password
        and exactly the role USER are saved, linked both ways, and the
        returned record shows the new person. */
    method Create(dto: PersonRegistrationDto) returns (r: Result<PersonDto, string>)
      requires Valid()
      requires dto.username.Some? && dto.password.Some?
      modifies this
      ensures Valid()
      ensures old(EmailsUnique()) ==> EmailsUnique()
      ensures old(EmailTaken(dto.email)) ==> r == Err(EMAIL_EXISTS)
      ensures !old(EmailTaken(dto.email)) && dto.username.value in old(users) ==> r == Err(USERNAME_EXISTS)
      ensures r.Ok? <==> !old(EmailTaken(dto.email)) && dto.username.value !in old(users)
      ensures r.Err? ==> persons == old(persons) && users == old(users) && nextId == old(nextId)
      ensures r.Ok? ==>
        && old(nextId) !in old(persons) && old(nextId) in persons
        && persons == old(persons)[old(nextId) := persons[old(nextId)]]
        && var person := persons[old(nextId)];
        && fresh(person) && person.id == Some(old(nextId))
        && person.name == dto.name && person.email == dto.email
        && person.user != null && fresh(person.user) && person.user.person == person
        && person.user.username == dto.username.value
        && person.user.password == encode(dto.password.value)
        && person.user.roles == {USER} && !person.user.expired
        && users == old(users)[dto.username.value := person.user]
        && r.value == PersonDto(Some(old(nextId)), dto.name, dto.email)
    {
      if EmailTaken(dto.email) {
        return Err(EMAIL_EXISTS);
      }
      if dto.username.value in users {
        return Err(USERNAME_EXISTS);
      }
      var person := NewAccount(dto.name, dto.email, dto.username.value, encode(dto.password.value), nextId);
      persons := persons[nextId := person];
      users := users[person.user.username := person.user];
      nextId := nextId + 1;
      if old(EmailsUnique()) {
        forall k, l | k in persons && l in persons && k != l
          ensures persons[k].email != persons[l].email
        {
          if k != old(nextId) && l != old(nextId) {
            assert old(persons[k].email != persons[l].email);
          }
        }
      }
      r := Ok(PersonDto(person.id, person.name, person.email));
    }

    /** The entities `create` builds: a person with the given name and
        e-mail, an account with the given username and password digest
        holding exactly the role USER, linked both ways. */
    static method NewAccount(name: Option<string>, email: Option<string>, username: string, digest: string, id: int)
      returns (person: Person)
      ensures fresh(person) && person.id == Some(id) && person.name == name && person.email == email
      ensures person.user != null && fresh(person.user) && person.user.person == person
      ensures person.user.username == username && person.user.password == digest
      ensures person.user.roles == {USER} && !person.user.expired
    {
      var user := new User(username, digest);
      user.AddRole(USER);
      person := new Person(name, email);
      person.user := user;
      user.person := person;
      person.id := Some(id);
    }

    /** `update`: overwrites name and e-mail of the stored person, keeping
        its id and account; "Person not found" for an absent id. */
    method Update(id: int, personDto: PersonDto) returns (r: Result<PersonDto, string>)
      requires Valid()
      modifies if id in persons then {persons[id]} else {}
      ensures Valid()
      ensures id !in persons ==> r == Err(PERSON_NOT_FOUND)
      ensures id in persons ==>
        && persons[id].name == personDto.name && persons[id].email == personDto.email
        && persons[id].id == Some(id) && persons[id].user == old(persons[id].user)
        && r == Ok(PersonDto(Some(id), personDto.name, personDto.email))
    {
      if id !in persons {
        return Err(PERSON_NOT_FOUND);
      }
      var person := persons[id];
      person.name := personDto.name;
      person.email := personDto.email;
      r := Ok(PersonDto(person.id, person.name, person.email));
    }

    /** `updatePassword`: the account row of the person's username gets the
        new password exactly as given, not encoded; nothing happens for a
        person without an account. */
    method UpdatePassword(id: int, newPassword: string) returns (r: Outcome<string>)
      requires Valid()
      modifies AccountOf(id)`password
      ensures Valid()
      ensures id !in persons ==> r == Fail(PERSON_NOT_FOUND)
      ensures id in persons ==> r == Pass
      ensures id in persons && persons[id].user != null ==>
        persons[id].user.password == newPassword && persons[id].user.roles == old(persons[id].user.roles)
        && persons[id].user.expired == old(persons[id].user.expired)
    {
      if id !in persons {
        return Fail(PERSON_NOT_FOUND);
      }
      var user := persons[id].user;
      if user != null {
        var account := users[user.username];
        account.password := newPassword;
      }
      r := Pass;
    }

    /** `toggleExpired`: the account row of the person's username gets the
        given status; nothing happens for a person without an account. */
    method ToggleExpired(id: int, status: bool) returns (r: Outcome<string>)
      requires Valid()
      modifies AccountOf(id)`expired
      ensures Valid()
      ensures id !in persons ==> r == Fail(PERSON_NOT_FOUND)
      ensures id in persons ==> r == Pass
      ensures id in persons && persons[id].user != null ==>
        persons[id].user.expired == status && persons[id].user.roles == old(persons[id].user.roles)
        && persons[id].user.password == old(persons[id].user.password)
    {
      if id !in persons {
        return Fail(PERSON_NOT_FOUND);
      }
      var user := persons[id].user;
      if user != null {
        var account := users[user.username];
        account.expired := status;
      }
      r := Pass;
    }

    /** `addRole`: delegated to the person's account, if any. */
    method AddRole(id: int, role: Role) returns (r: Outcome<string>)
      requires Valid()
      modifies AccountOf(id)`roles
      ensures Valid()
      ensures id !in persons ==> r == Fail(PERSON_NOT_FOUND)
      ensures id in persons ==> r == Pass
      ensures id in persons && persons[id].user != null ==>
        persons[id].user.roles == old(persons[id].user.roles) + {role}
        && persons[id].user.password == old(persons[id].user.password)
        && persons[id].user.expired == old(persons[id].user.expired)
    {
      if id !in persons {
        return Fail(PERSON_NOT_FOUND);
      }
      var user := persons[id].user;
      if user != null {
        user.AddRole(role);
      }
      r := Pass;
    }

    /** `removeRole`: delegated to the person's account, if any. */
    method RemoveRole(id: int, role: Role) returns (r: Outcome<string>)
      requires Valid()
      modifies AccountOf(id)`roles
      ensures Valid()
      ensures id !in persons ==> r == Fail(PERSON_NOT_FOUND)
      ensures id in persons ==> r == Pass
      ensures id in persons && persons[id].user != null ==>
        persons[id].user.roles == old(persons[id].user.roles) - {role}
        && persons[id].user.password == old(persons[id].user.password)
        && persons[id].user.expired == old(persons[id].user.expired)
    {
      if id !in persons {
        return Fail(PERSON_NOT_FOUND);
      }
      var user := persons[id].user;
      if user != null {
        user.RemoveRole(role);
      }
      r := Pass;
    }
  }
}
