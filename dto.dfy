/** The request and response records of the API and the constraints the
    controllers have checked (through `@Valid`) before a service sees them. */
module Dto {
  import opened Basics
  import opened BeanValidation

  /** An attachment as the API carries it; `data` is the file content. */
  datatype AttachmentDto = AttachmentDto(id: Option<int>, fileName: Option<string>, fileType: Option<string>, data: seq<byte>)

  datatype TodoDto = TodoDto(
    id: Option<int>,
    title: Option<string>,
    description: Option<string>,
    completed: bool,
    createdAt: Option<LocalDateTime>,
    updatedAt: Option<LocalDateTime>,
    dueDate: Option<LocalDateTime>,
    personId: Option<int>,
    numberOfAttachments: int,
    attachments: Option<seq<AttachmentDto>>)
  {
    /** `withAttachments`: a copy carrying the given list and its length
        (0 for null), every other field as it was. */
    function WithAttachments(newAttachments: Option<seq<AttachmentDto>>): (r: TodoDto)
      ensures r.attachments == newAttachments
      ensures r.numberOfAttachments == if newAttachments.Some? then |newAttachments.value| else 0
      ensures r.(numberOfAttachments := numberOfAttachments, attachments := attachments) == this
    {
      TodoDto(id, title, description, completed, createdAt, updatedAt, dueDate, personId,
              if newAttachments.Some? then |newAttachments.value| else 0,
              newAttachments)
    }

    /** `@NotBlank @Size(min = 2, max = 100)` on the title. */
    predicate TitleValid() {
      NotBlank(title) && Size(title, 2, 100)
    }

    /** `@Size(max = 500)` on the description. */
    predicate DescriptionValid() {
      Size(description, 0, 500)
    }

    predicate Valid() {
      TitleValid() && DescriptionValid()
    }
  }

  /** Replacing the attachments twice with the same list is replacing them
      once, and the replacement does not change whether the record is valid. */
  lemma WithAttachmentsIdempotent(dto: TodoDto, newAttachments: Option<seq<AttachmentDto>>)
    ensures dto.WithAttachments(newAttachments).WithAttachments(newAttachments) == dto.WithAttachments(newAttachments)
    ensures dto.WithAttachments(newAttachments).Valid() <==> dto.Valid()
  {
  }

  /** A valid title is present, between 2 and 100 characters long and holds
      a character above U+0020 (so two spaces are refused); a description
      may be absent and has at most 500 characters, so one of exactly 500
      (which the message calls too long) is accepted. */
  lemma TodoDtoConstraints(dto: TodoDto)
    ensures dto.TitleValid() <==>
      && dto.title.Some? && 2 <= |dto.title.value| <= 100
      && exists i :: 0 <= i < |dto.title.value| && dto.title.value[i] > ' '
    ensures dto.DescriptionValid() <==> dto.description.None? || |dto.description.value| <= 500
  {
    NotBlankIffVisibleChar(dto.title);
  }

  /** The public view of a person. */
  datatype PersonDto = PersonDto(id: Option<int>, name: Option<string>, email: Option<string>)

  /** The registration form. `@Email` on the e-mail is not modelled. */
  datatype PersonRegistrationDto = PersonRegistrationDto(
    name: Option<string>,
    email: Option<string>,
    username: Option<string>,
    password: Option<string>,
    confirmPassword: Option<string>)
  {
    /** `isPasswordMatching`, checked as `@AssertTrue`. */
    predicate IsPasswordMatching() {
      password.Some? && password == confirmPassword
    }

    predicate NameValid() {
      NotBlank(name) && Size(name, 2, 100)
    }

    predicate EmailValid() {
      NotBlank(email) && Size(email, 0, 150)
    }

    predicate UsernameValid() {
      NotBlank(username) && Size(username, 4, 50) && MatchesUsernamePattern(username)
    }

    /** Only the length: the complexity pattern is not part of the record's
        constraints. */
    predicate PasswordValid() {
      NotBlank(password) && Size(password, 8, 100)
    }

    predicate ConfirmPasswordValid() {
      NotBlank(confirmPassword)
    }

    predicate Valid() {
      NameValid() && EmailValid() && UsernameValid() && PasswordValid() && ConfirmPasswordValid() && IsPasswordMatching()
    }
  }

  /** The login form. */
  datatype AuthRequestDto = AuthRequestDto(username: Option<string>, password: Option<string>)
  {
    predicate UsernameValid() {
      NotBlank(username) && Size(username, 4, 50) && MatchesUsernamePattern(username)
    }

    predicate PasswordValid() {
      NotBlank(password) && Size(password, 8, 100)
    }

    predicate Valid() {
      UsernameValid() && PasswordValid()
    }
  }

  /** The passwords match exactly when both are present and equal; a
      confirmation that matches a non-blank password is itself not blank. */
  lemma PasswordMatching(dto: PersonRegistrationDto)
    ensures dto.IsPasswordMatching() <==>
      dto.password.Some? && dto.confirmPassword.Some? && dto.password.value == dto.confirmPassword.value
    ensures dto.IsPasswordMatching() && dto.PasswordValid() ==> dto.ConfirmPasswordValid()
  {
  }

  /** A valid name has 2 to 100 characters, a valid e-mail at most 150 and a
      valid password 8 to 100; each is present and holds a character above
      U+0020. */
  lemma RegistrationFieldConstraints(dto: PersonRegistrationDto)
    ensures dto.NameValid() <==>
      && dto.name.Some? && 2 <= |dto.name.value| <= 100
      && exists i :: 0 <= i < |dto.name.value| && dto.name.value[i] > ' '
    ensures dto.EmailValid() <==>
      && dto.email.Some? && |dto.email.value| <= 150
      && exists i :: 0 <= i < |dto.email.value| && dto.email.value[i] > ' '
    ensures dto.PasswordValid() <==>
      && dto.password.Some? && 8 <= |dto.password.value| <= 100
      && exists i :: 0 <= i < |dto.password.value| && dto.password.value[i] > ' '
  {
    NotBlankIffVisibleChar(dto.name);
    NotBlankIffVisibleChar(dto.email);
    NotBlankIffVisibleChar(dto.password);
  }

  /** A username is valid for registration exactly when it has 4 to 50
      characters, each a letter, a digit, '.', '_' or '-'. */
  lemma RegistrationUsernameValid(dto: PersonRegistrationDto)
    ensures dto.UsernameValid() <==>
      && dto.username.Some? && 4 <= |dto.username.value| <= 50
      && forall i :: 0 <= i < |dto.username.value| ==> UsernameChar(dto.username.value[i])
  {
    if dto.username.Some? && MatchesUsernamePattern(dto.username) {
      UsernamePatternSubsumes(dto.username);
    }
  }

  /** The login form accepts a username exactly when it has 4 to 50
      characters from `[a-zA-Z0-9._-]`, and a password exactly when it has 8
      to 100 characters one of which is above U+0020: the registration
      form's bounds, so every registered account can be submitted for login. */
  lemma LoginAcceptsRegisteredCredentials(login: AuthRequestDto, registration: PersonRegistrationDto)
    ensures login.UsernameValid() <==>
      && login.username.Some? && 4 <= |login.username.value| <= 50
      && forall i :: 0 <= i < |login.username.value| ==> UsernameChar(login.username.value[i])
    ensures login.PasswordValid() <==>
      && login.password.Some? && 8 <= |login.password.value| <= 100
      && exists i :: 0 <= i < |login.password.value| && login.password.value[i] > ' '
    ensures login.username == registration.username ==> (login.UsernameValid() <==> registration.UsernameValid())
    ensures login.password == registration.password ==> (login.PasswordValid() <==> registration.PasswordValid())
  {
    if login.username.Some? && MatchesUsernamePattern(login.username) {
      UsernamePatternSubsumes(login.username);
    }
    RegistrationUsernameValid(registration);
    RegistrationFieldConstraints(registration);
    NotBlankIffVisibleChar(login.password);
  }

  /** No complexity rule is enforced: a password of 8 to 100 lower-case
      letters, with no digit, capital or special character, is valid for
      both forms. */
  lemma ComplexityNotEnforced(registration: PersonRegistrationDto)
    requires registration.password.Some? && 8 <= |registration.password.value| <= 100
    requires forall i :: 0 <= i < |registration.password.value| ==> 'a' <= registration.password.value[i] <= 'z'
    ensures registration.PasswordValid()
    ensures AuthRequestDto(registration.username, registration.password).PasswordValid()
  {
    assert registration.password.value[0] > ' ';
    NotBlankIffVisibleChar(registration.password);
  }
}
