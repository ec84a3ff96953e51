/** Conversations, their messages and the immutable versions of each answer.

    The tables are maps and every command is one transaction: it commits as a whole or
    fails and changes nothing. Between the transaction that starts an answer and the one
    that settles it a generation is in flight; other commands may come in between. */
module Conversations {
  import opened Values
  import opened Ordering

  type Id = string

  datatype Role = User | Assistant
  datatype Status = Completed | Generating | Interrupted

  datatype Message = Message(
    conversation: Id,
    ordinal: nat,
    role: Role,
    content: string,
    status: Status,
    replyTo: Option<Id>,
    selected: Option<Id>)

  datatype Version = Version(message: Id, number: nat, text: string, status: Status)

  datatype Db = Db(titles: map<Id, string>, messages: map<Id, Message>, versions: map<Id, Version>, last: Option<Id>)

  datatype Answer = Answer(text: string, completed: bool)

  datatype Error = ConversationNotFound | AnswerRunning | RegenerationUnavailable | MessageNotFound | VersionNotFound

  const DEFAULT_TITLE := "New conversation"

  // ------------------------------------------------------------- transactions

  predicate Running(db: Db, conversation: Id) {
    exists m :: m in db.messages && db.messages[m].conversation == conversation && db.messages[m].status == Generating
  }

  ghost function Ordinals(db: Db, conversation: Id): set<nat> {
    set m | m in db.messages && db.messages[m].conversation == conversation :: db.messages[m].ordinal
  }

  ghost function Numbers(db: Db, message: Id): set<nat> {
    set v | v in db.versions && db.versions[v].message == message :: db.versions[v].number
  }

  function StatusOf(answer: Answer): Status {
    if answer.completed then Completed else Interrupted
  }

  /** The status of the selected version, or interrupted when there is none. */
  function SelectedStatus(db: Db, m: Id): Status
    requires m in db.messages
  {
    match db.messages[m].selected
    case Some(v) => if v in db.versions then db.versions[v].status else Interrupted
    case None => Interrupted
  }

  function WithStatus(db: Db, m: Id, status: Status): Db {
    if m in db.messages then db.(messages := db.messages[m := db.messages[m].(status := status)]) else db
  }

  function Begun(db: Db, c: Id, question: string, user: Id, assistant: Id, ordinal: nat): Db
    requires c in db.titles
  {
    db.(messages := db.messages[user := Message(c, ordinal, User, question, Completed, None, None)]
                               [assistant := Message(c, ordinal + 1, Assistant, "", Generating, Some(user), None)],
        titles := db.titles[c := if db.titles[c] == DEFAULT_TITLE then (if |question| <= 60 then question else question[..60]) else db.titles[c]],
        last := Some(c))
  }

  predicate CanRegenerate(db: Db, c: Id, m: Id) {
    && m in db.messages && db.messages[m].conversation == c && db.messages[m].role == Assistant
    && db.messages[m].selected.Some?
    && db.messages[m].replyTo.Some? && db.messages[m].replyTo.value in db.messages
  }

  function Appended(db: Db, m: Id, answer: Answer, version: Id, number: nat): Db
    requires m in db.messages
  {
    db.(versions := db.versions[version := Version(m, number, answer.text, StatusOf(answer))],
        messages := db.messages[m := db.messages[m].(selected := Some(version), status := StatusOf(answer))])
  }

  function Restored(db: Db, m: Id): Db {
    if m in db.messages then WithStatus(db, m, SelectedStatus(db, m)) else db
  }

  predicate CanSelect(db: Db, c: Id, m: Id, v: Id) {
    v in db.versions && db.versions[v].message == m && m in db.messages && db.messages[m].conversation == c
  }

  function Selected(db: Db, c: Id, m: Id, v: Id): Db
    requires CanSelect(db, c, m, v)
  {
    db.(messages := db.messages[m := db.messages[m].(selected := Some(v), status := db.versions[v].status)], last := Some(c))
  }

  function Deleted(db: Db, c: Id): Db {
    var messages := map m | m in db.messages && db.messages[m].conversation != c :: db.messages[m];
    db.(titles := db.titles - {c}, messages := messages,
        versions := map v | v in db.versions && db.versions[v].message in messages :: db.versions[v],
        last := if db.last == Some(c) then None else db.last)
  }

  function Recovered(db: Db): Db {
    db.(messages := map m | m in db.messages ::
          if db.messages[m].status == Generating then db.messages[m].(status := SelectedStatus(db, m)) else db.messages[m])
  }

  // ----------------------------------------------------------------- invariant

  ghost predicate MessageInvariant(db: Db, m: Id)
    requires m in db.messages
  {
    var x := db.messages[m];
    && x.conversation in db.titles
    && (x.role == User ==> x.status == Completed && x.selected == None && x.replyTo == None)
    && (x.role == Assistant ==>
          && x.replyTo.Some? && x.replyTo.value in db.messages
          && var u := db.messages[x.replyTo.value];
             u.role == User && u.conversation == x.conversation && u.ordinal + 1 == x.ordinal)
    && (x.selected.Some? ==> x.selected.value in db.versions && db.versions[x.selected.value].message == m)
    && (x.selected == None && x.role == Assistant ==> forall v :: v in db.versions ==> db.versions[v].message != m)
    && (x.role == Assistant && x.status != Generating ==> x.status == SelectedStatus(db, m))
  }

  ghost predicate VersionInvariant(db: Db, v: Id)
    requires v in db.versions
  {
    var x := db.versions[v];
    && x.message in db.messages && db.messages[x.message].role == Assistant
    && x.status != Generating && x.number >= 1
    && (x.number >= 2 ==> x.status == Completed && HasPreviousVersion(db, v))
  }

  ghost predicate HasPreviousVersion(db: Db, v: Id)
    requires v in db.versions
  {
    exists w :: w in db.versions && db.versions[w].message == db.versions[v].message && db.versions[w].number + 1 == db.versions[v].number
  }

  ghost predicate HasPreviousMessage(db: Db, m: Id)
    requires m in db.messages
  {
    exists n :: n in db.messages && db.messages[n].conversation == db.messages[m].conversation && db.messages[n].ordinal + 1 == db.messages[m].ordinal
  }

  ghost predicate OneGenerating(db: Db) {
    forall m, n ::
      (&& m in db.messages && n in db.messages
       && db.messages[m].status == Generating && db.messages[n].status == Generating
       && db.messages[m].conversation == db.messages[n].conversation) ==> m == n
  }

  ghost predicate UniqueNumbers(db: Db) {
    forall v, w ::
      (&& v in db.versions && w in db.versions
       && db.versions[v].message == db.versions[w].message && db.versions[v].number == db.versions[w].number) ==> v == w
  }

  /** The ordinals of a conversation are 0, 1, 2, ... without gaps or repetition. */
  ghost predicate DenseOrdinals(db: Db) {
    && (forall m, n ::
          (&& m in db.messages && n in db.messages
           && db.messages[m].conversation == db.messages[n].conversation
           && db.messages[m].ordinal == db.messages[n].ordinal) ==> m == n)
    && (forall m {:trigger HasPreviousMessage(db, m)} :: m in db.messages && db.messages[m].ordinal > 0 ==> HasPreviousMessage(db, m))
  }

  ghost predicate Invariant(db: Db) {
    && (forall m {:trigger MessageInvariant(db, m)} :: m in db.messages ==> MessageInvariant(db, m))
    && (forall v {:trigger VersionInvariant(db, v)} :: v in db.versions ==> VersionInvariant(db, v))
    && OneGenerating(db) && UniqueNumbers(db) && DenseOrdinals(db)
  }

  // -------------------------------------------------------------- whole system

  /** A generation in flight, for a first answer or for another version of one. */
  datatype Token = Token(message: Id, first: bool)

  datatype System = System(db: Db, tokens: map<nat, Token>)

  const START := System(Db(map[], map[], map[], None), map[])

  /** `Abandon` is a generation whose settling transaction fails itself: it ends, and its
      message is left as it was. */
  datatype Command =
    | Create(conversation: Id, title: string)
    | Delete(conversation: Id)
    | Ask(conversation: Id, question: string, user: Id, assistant: Id, ordinal: nat, token: nat)
    | Regenerate(conversation: Id, message: Id, token: nat)
    | Finish(token: nat, answer: Answer, version: Id, number: nat)
    | Fail(token: nat)
    | Abandon(token: nat)
    | Select(conversation: Id, message: Id, version: Id)
    | Recover
    | Crash

  ghost predicate FreshMessage(s: System, m: Id) {
    m !in s.db.messages && forall t :: t in s.tokens ==> s.tokens[t].message != m
  }

  /** Identifiers the command generates are new; counters continue the stored ones. */
  ghost predicate CanIssue(s: System, c: Command) {
    match c
    case Create(conversation, _) => conversation !in s.db.titles
    case Ask(conversation, _, user, assistant, ordinal, token) =>
      user != assistant && FreshMessage(s, user) && FreshMessage(s, assistant) && token !in s.tokens
      && IsNext(Ordinals(s.db, conversation), 0, ordinal)
    case Regenerate(_, _, token) => token !in s.tokens
    case Finish(token, _, version, number) =>
      token in s.tokens && version !in s.db.versions && IsNext(Numbers(s.db, s.tokens[token].message), 1, number)
    case Fail(token) => token in s.tokens
    case Abandon(token) => token in s.tokens
    case _ => true
  }

  /** The committed effect of a command; a command that fails leaves the tables alone. */
  function Issue(s: System, c: Command): System {
    match c
    case Create(conversation, title) => s.(db := s.db.(titles := s.db.titles[conversation := title], last := Some(conversation)))
    case Delete(conversation) => if conversation in s.db.titles then s.(db := Deleted(s.db, conversation)) else s
    case Ask(conversation, question, user, assistant, ordinal, token) =>
      if conversation in s.db.titles && !Running(s.db, conversation)
      then System(Begun(s.db, conversation, question, user, assistant, ordinal), s.tokens[token := Token(assistant, true)])
      else s
    case Regenerate(conversation, message, token) =>
      if !Running(s.db, conversation) && CanRegenerate(s.db, conversation, message)
      then System(WithStatus(s.db, message, Generating), s.tokens[token := Token(message, false)])
      else s
    case Finish(token, answer, version, number) =>
      if token !in s.tokens then s
      else
        var m, rest := s.tokens[token].message, s.tokens - {token};
        if s.tokens[token].first || answer.completed
        then System(if m in s.db.messages && s.db.messages[m].role == Assistant then Appended(s.db, m, answer, version, number) else s.db, rest)
        else System(Restored(s.db, m), rest)
    case Fail(token) =>
      if token !in s.tokens then s
      else
        var m, rest := s.tokens[token].message, s.tokens - {token};
        System(if s.tokens[token].first then WithStatus(s.db, m, Interrupted) else Restored(s.db, m), rest)
    case Select(conversation, message, version) =>
      if CanSelect(s.db, conversation, message, version) then s.(db := Selected(s.db, conversation, message, version)) else s
    case Abandon(token) => s.(tokens := s.tokens - {token})
    case Recover => s.(db := Recovered(s.db))
    case Crash => s.(tokens := map[])
  }

  /** A first answer in flight has no version yet, and is in flight once; another version
      in flight has an earlier one. */
  ghost predicate TokenInvariant(s: System) {
    && (forall t :: t in s.tokens && s.tokens[t].message in s.db.messages ==>
          var m := s.db.messages[s.tokens[t].message];
          m.role == Assistant && (s.tokens[t].first <==> m.selected == None))
    && (forall t, u :: t in s.tokens && u in s.tokens && s.tokens[t].first && s.tokens[t].message == s.tokens[u].message ==> t == u)
  }

  ghost predicate SystemInvariant(s: System) {
    Invariant(s.db) && TokenInvariant(s)
  }

  // -------------------------------------------------------------- preservation

  lemma BegunKeeps(db: Db, c: Id, question: string, user: Id, assistant: Id, ordinal: nat)
    requires Invariant(db) && c in db.titles && !Running(db, c)
    requires user != assistant && user !in db.messages && assistant !in db.messages
    requires IsNext(Ordinals(db, c), 0, ordinal)
    ensures Invariant(Begun(db, c, question, user, assistant, ordinal))
  {
    var db' := Begun(db, c, question, user, assistant, ordinal);
    VersionsKeep(db, db');
    forall m | m in db'.messages ensures MessageInvariant(db', m) {
      if m in db.messages {
        assert MessageInvariant(db, m);
        BegunMessage(db, c, question, user, assistant, ordinal, m);
      } else {
        BegunNewMessage(db, c, question, user, assistant, ordinal, m);
      }
    }
    BegunGenerating(db, c, question, user, assistant, ordinal);
    BegunDense(db, c, question, user, assistant, ordinal);
  }

  lemma BegunNewMessage(db: Db, c: Id, question: string, user: Id, assistant: Id, ordinal: nat, m: Id)
    requires Invariant(db) && c in db.titles && user != assistant && m in {user, assistant} && m !in db.messages
    ensures MessageInvariant(Begun(db, c, question, user, assistant, ordinal), m)
  {
    forall v | v in db.versions ensures db.versions[v].message != m {
      assert VersionInvariant(db, v);
    }
  }

  lemma BegunGenerating(db: Db, c: Id, question: string, user: Id, assistant: Id, ordinal: nat)
    requires OneGenerating(db) && c in db.titles && !Running(db, c)
    requires user != assistant && user !in db.messages && assistant !in db.messages
    ensures OneGenerating(Begun(db, c, question, user, assistant, ordinal))
  {
  }

  lemma BegunMessage(db: Db, c: Id, question: string, user: Id, assistant: Id, ordinal: nat, m: Id)
    requires c in db.titles && user !in db.messages && assistant !in db.messages
    requires m in db.messages && MessageInvariant(db, m)
    ensures MessageInvariant(Begun(db, c, question, user, assistant, ordinal), m)
  {
  }

  lemma BegunDense(db: Db, c: Id, question: string, user: Id, assistant: Id, ordinal: nat)
    requires DenseOrdinals(db) && c in db.titles
    requires user != assistant && user !in db.messages && assistant !in db.messages
    requires IsNext(Ordinals(db, c), 0, ordinal)
    ensures DenseOrdinals(Begun(db, c, question, user, assistant, ordinal))
  {
    var db' := Begun(db, c, question, user, assistant, ordinal);
    forall m | m in db.messages && db.messages[m].conversation == c ensures db.messages[m].ordinal < ordinal {
      assert db.messages[m].ordinal in Ordinals(db, c);
    }
    forall m, n | m in db'.messages && n in db'.messages && db'.messages[m].conversation == db'.messages[n].conversation && db'.messages[m].ordinal == db'.messages[n].ordinal
      ensures m == n
    {
      if m in db.messages && n in db.messages {
        assert db'.messages[m] == db.messages[m] && db'.messages[n] == db.messages[n];
      }
    }
    forall m | m in db'.messages && db'.messages[m].ordinal > 0 ensures HasPreviousMessage(db', m) {
      BegunPrevious(db, c, question, user, assistant, ordinal, m);
    }
  }

  lemma BegunPrevious(db: Db, c: Id, question: string, user: Id, assistant: Id, ordinal: nat, m: Id)
    requires DenseOrdinals(db) && c in db.titles
    requires user != assistant && user !in db.messages && assistant !in db.messages
    requires IsNext(Ordinals(db, c), 0, ordinal)
    requires m in Begun(db, c, question, user, assistant, ordinal).messages
    requires Begun(db, c, question, user, assistant, ordinal).messages[m].ordinal > 0
    ensures HasPreviousMessage(Begun(db, c, question, user, assistant, ordinal), m)
  {
    var db' := Begun(db, c, question, user, assistant, ordinal);
    if m == assistant {
      assert db'.messages[user].ordinal + 1 == db'.messages[m].ordinal;
    } else if m == user {
      assert Ordinals(db, c) != {};
      var n :| n in db.messages && db.messages[n].conversation == c && db.messages[n].ordinal + 1 == ordinal;
      assert db'.messages[n] == db.messages[n];
    } else {
      assert HasPreviousMessage(db, m);
      var n :| n in db.messages && db.messages[n].conversation == db.messages[m].conversation && db.messages[n].ordinal + 1 == db.messages[m].ordinal;
      assert db'.messages[n] == db.messages[n];
    }
  }

  /** Changing statuses and selections leaves the ordinals alone. */
  lemma DenseUnchanged(db: Db, db': Db)
    requires DenseOrdinals(db) && db'.messages.Keys == db.messages.Keys
    requires forall m :: m in db.messages ==> db'.messages[m].ordinal == db.messages[m].ordinal && db'.messages[m].conversation == db.messages[m].conversation
    ensures DenseOrdinals(db')
  {
    forall m | m in db'.messages && db'.messages[m].ordinal > 0 ensures HasPreviousMessage(db', m) {
      assert HasPreviousMessage(db, m);
      var n :| n in db.messages && db.messages[n].conversation == db.messages[m].conversation && db.messages[n].ordinal + 1 == db.messages[m].ordinal;
      assert db'.messages[n].ordinal + 1 == db.messages[m].ordinal;
    }
  }

  /** Changes to messages alone leave the versions in order. */
  lemma VersionsKeep(db: Db, db': Db)
    requires forall v {:trigger VersionInvariant(db, v)} :: v in db.versions ==> VersionInvariant(db, v)
    requires db'.versions == db.versions && db.messages.Keys <= db'.messages.Keys
    requires forall m :: m in db.messages ==> db'.messages[m].role == db.messages[m].role
    ensures forall v {:trigger VersionInvariant(db', v)} :: v in db'.versions ==> VersionInvariant(db', v)
  {
    forall v | v in db'.versions ensures VersionInvariant(db', v) {
      assert VersionInvariant(db, v);
      assert HasPreviousVersion(db, v) ==> HasPreviousVersion(db', v);
    }
  }

  /** Only statuses change, to ones the invariant allows. */
  lemma StatusKeeps(db: Db, db': Db)
    requires Invariant(db) && db'.titles == db.titles && db'.versions == db.versions && db'.messages.Keys == db.messages.Keys
    requires forall m :: m in db.messages ==> db'.messages[m] == db.messages[m].(status := db'.messages[m].status)
    requires forall m :: m in db.messages && db'.messages[m].status != db.messages[m].status ==>
               db.messages[m].role == Assistant && (db'.messages[m].status == Generating || db'.messages[m].status == SelectedStatus(db, m))
    requires OneGenerating(db')
    ensures Invariant(db')
  {
    VersionsKeep(db, db');
    forall m | m in db'.messages ensures MessageInvariant(db', m) {
      assert MessageInvariant(db, m);
    }
    DenseUnchanged(db, db');
  }

  lemma AppendedVersions(db: Db, m: Id, answer: Answer, version: Id, number: nat)
    requires Invariant(db) && m in db.messages && db.messages[m].role == Assistant && version !in db.versions
    requires IsNext(Numbers(db, m), 1, number) && (answer.completed || db.messages[m].selected == None)
    ensures var db' := Appended(db, m, answer, version, number);
            && (forall v {:trigger VersionInvariant(db', v)} :: v in db'.versions ==> VersionInvariant(db', v))
            && UniqueNumbers(db')
  {
    var db' := Appended(db, m, answer, version, number);
    assert MessageInvariant(db, m);
    forall v | v in db.versions && db.versions[v].message == m ensures 1 <= db.versions[v].number < number {
      assert VersionInvariant(db, v);
      assert db.versions[v].number in Numbers(db, m);
    }
    forall v | v in db'.versions ensures VersionInvariant(db', v) {
      if v != version {
        assert VersionInvariant(db, v);
        AppendedOther(db, m, answer, version, number, v);
      } else if Numbers(db, m) != {} {
        var w :| w in db.versions && db.versions[w].message == m && db.versions[w].number + 1 == number;
        assert db'.versions[w] == db.versions[w];
        assert HasPreviousVersion(db', v);
      }
    }
  }

  lemma AppendedOther(db: Db, m: Id, answer: Answer, version: Id, number: nat, v: Id)
    requires m in db.messages && v in db.versions && v != version && VersionInvariant(db, v)
    requires version !in db.versions
    ensures VersionInvariant(Appended(db, m, answer, version, number), v)
  {
    if HasPreviousVersion(db, v) {
      var w :| w in db.versions && db.versions[w].message == db.versions[v].message && db.versions[w].number + 1 == db.versions[v].number;
      assert Appended(db, m, answer, version, number).versions[w] == db.versions[w];
    }
  }

  lemma AppendedMessage(db: Db, m: Id, answer: Answer, version: Id, number: nat, n: Id)
    requires m in db.messages && db.messages[m].role == Assistant && version !in db.versions
    requires n in db.messages && MessageInvariant(db, n) && MessageInvariant(db, m)
    ensures MessageInvariant(Appended(db, m, answer, version, number), n)
  {
  }

  lemma AppendedKeeps(db: Db, m: Id, answer: Answer, version: Id, number: nat)
    requires Invariant(db) && m in db.messages && db.messages[m].role == Assistant && version !in db.versions
    requires IsNext(Numbers(db, m), 1, number) && (answer.completed || db.messages[m].selected == None)
    ensures Invariant(Appended(db, m, answer, version, number))
  {
    var db' := Appended(db, m, answer, version, number);
    AppendedVersions(db, m, answer, version, number);
    forall n | n in db'.messages ensures MessageInvariant(db', n) {
      assert MessageInvariant(db, n) && MessageInvariant(db, m);
      AppendedMessage(db, m, answer, version, number, n);
    }
    assert OneGenerating(db') by {
      assert forall n :: n in db.messages && db'.messages[n].status == Generating ==> db'.messages[n] == db.messages[n];
    }
    DenseUnchanged(db, db');
  }

  lemma SelectedMessage(db: Db, c: Id, m: Id, v: Id, n: Id)
    requires CanSelect(db, c, m, v) && db.messages[m].role == Assistant
    requires n in db.messages && MessageInvariant(db, n) && MessageInvariant(db, m)
    ensures MessageInvariant(Selected(db, c, m, v), n)
  {
  }

  lemma SelectedKeeps(db: Db, c: Id, m: Id, v: Id)
    requires Invariant(db) && CanSelect(db, c, m, v)
    ensures Invariant(Selected(db, c, m, v))
  {
    var db' := Selected(db, c, m, v);
    assert VersionInvariant(db, v);
    VersionsKeep(db, db');
    forall n | n in db'.messages ensures MessageInvariant(db', n) {
      assert MessageInvariant(db, n) && MessageInvariant(db, m);
      SelectedMessage(db, c, m, v, n);
    }
    DenseUnchanged(db, db');
  }

  lemma DeletedVersion(db: Db, c: Id, v: Id)
    requires v in Deleted(db, c).versions && VersionInvariant(db, v)
    ensures VersionInvariant(Deleted(db, c), v)
  {
    if HasPreviousVersion(db, v) {
      var w :| w in db.versions && db.versions[w].message == db.versions[v].message && db.versions[w].number + 1 == db.versions[v].number;
      assert Deleted(db, c).versions[w] == db.versions[w];
    }
  }

  lemma DeletedMessage(db: Db, c: Id, m: Id)
    requires m in Deleted(db, c).messages && MessageInvariant(db, m)
    ensures MessageInvariant(Deleted(db, c), m)
  {
  }

  lemma DeletedDense(db: Db, c: Id)
    requires DenseOrdinals(db)
    ensures DenseOrdinals(Deleted(db, c))
  {
    var db' := Deleted(db, c);
    forall m | m in db'.messages && db'.messages[m].ordinal > 0 ensures HasPreviousMessage(db', m) {
      assert HasPreviousMessage(db, m);
      var n :| n in db.messages && db.messages[n].conversation == db.messages[m].conversation && db.messages[n].ordinal + 1 == db.messages[m].ordinal;
      assert db'.messages[n] == db.messages[n];
    }
  }

  lemma DeletedKeeps(db: Db, c: Id)
    requires Invariant(db)
    ensures Invariant(Deleted(db, c))
  {
    var db' := Deleted(db, c);
    forall v | v in db'.versions ensures VersionInvariant(db', v) {
      assert VersionInvariant(db, v);
      DeletedVersion(db, c, v);
    }
    forall m | m in db'.messages ensures MessageInvariant(db', m) {
      assert MessageInvariant(db, m);
      DeletedMessage(db, c, m);
    }
    DeletedDense(db, c);
  }

  lemma RegenerationKeeps(db: Db, c: Id, m: Id)
    requires Invariant(db) && !Running(db, c) && CanRegenerate(db, c, m)
    ensures Invariant(WithStatus(db, m, Generating))
  {
    StatusKeeps(db, WithStatus(db, m, Generating));
  }

  lemma RestoredKeeps(db: Db, m: Id)
    requires Invariant(db) && m in db.messages && db.messages[m].role == Assistant
    ensures Invariant(Restored(db, m))
  {
    SelectedSettled(db, m);
    StatusKeeps(db, Restored(db, m));
  }

  lemma FailedKeeps(db: Db, m: Id)
    requires Invariant(db) && m in db.messages && db.messages[m].role == Assistant && db.messages[m].selected == None
    ensures Invariant(WithStatus(db, m, Interrupted))
  {
    StatusKeeps(db, WithStatus(db, m, Interrupted));
  }

  lemma RecoveredKeeps(db: Db)
    requires Invariant(db)
    ensures Invariant(Recovered(db))
  {
    var db' := Recovered(db);
    forall m | m in db.messages ensures db'.messages[m].status != Generating {
      SelectedSettled(db, m);
    }
    forall m | m in db.messages && db.messages[m].status == Generating ensures db.messages[m].role == Assistant {
      assert MessageInvariant(db, m);
    }
    StatusKeeps(db, db');
  }

  lemma IssueKeepsDb(s: System, c: Command)
    requires SystemInvariant(s) && CanIssue(s, c)
    ensures Invariant(Issue(s, c).db)
  {
    match c
    case Create(_, _) => CreatedKeeps(s.db, Issue(s, c).db);
    case Delete(conversation) => DeletedKeeps(s.db, conversation);
    case Ask(conversation, question, user, assistant, ordinal, _) =>
      if conversation in s.db.titles && !Running(s.db, conversation) {
        BegunKeeps(s.db, conversation, question, user, assistant, ordinal);
      }
    case Regenerate(conversation, message, _) =>
      if !Running(s.db, conversation) && CanRegenerate(s.db, conversation, message) {
        RegenerationKeeps(s.db, conversation, message);
      }
    case Finish(token, answer, version, number) =>
      FinishKeeps(s, token, answer, version, number);
    case Fail(token) =>
      var m := s.tokens[token].message;
      if m in s.db.messages {
        if s.tokens[token].first { FailedKeeps(s.db, m); } else { RestoredKeeps(s.db, m); }
      }
    case Select(conversation, message, version) =>
      if CanSelect(s.db, conversation, message, version) {
        SelectedKeeps(s.db, conversation, message, version);
      }
    case Recover => RecoveredKeeps(s.db);
    case _ =>
  }

  lemma FinishKeeps(s: System, token: nat, answer: Answer, version: Id, number: nat)
    requires SystemInvariant(s) && CanIssue(s, Finish(token, answer, version, number))
    ensures Invariant(Issue(s, Finish(token, answer, version, number)).db)
  {
    var m := s.tokens[token].message;
    if m in s.db.messages {
      if s.tokens[token].first || answer.completed {
        AppendedKeeps(s.db, m, answer, version, number);
      } else {
        RestoredKeeps(s.db, m);
      }
    }
  }

  lemma SelectedSettled(db: Db, m: Id)
    requires Invariant(db) && m in db.messages
    ensures SelectedStatus(db, m) != Generating
  {
    assert MessageInvariant(db, m);
    if db.messages[m].selected.Some? {
      assert VersionInvariant(db, db.messages[m].selected.value);
    }
  }

  lemma CreatedKeeps(db: Db, db': Db)
    requires Invariant(db) && db'.messages == db.messages && db'.versions == db.versions && db.titles.Keys <= db'.titles.Keys
    ensures Invariant(db')
  {
    VersionsKeep(db, db');
    forall m | m in db'.messages ensures MessageInvariant(db', m) {
      assert MessageInvariant(db, m);
    }
    DenseUnchanged(db, db');
  }

  /** Tokens survive where their messages keep role and selection state. */
  lemma TokensKept(s: System, after: System)
    requires TokenInvariant(s)
    requires forall t :: t in after.tokens ==> t in s.tokens && after.tokens[t] == s.tokens[t]
    requires forall t :: t in after.tokens && after.tokens[t].message in after.db.messages ==>
               var m := after.tokens[t].message;
               && m in s.db.messages && after.db.messages[m].role == s.db.messages[m].role
               && (after.db.messages[m].selected == None <==> s.db.messages[m].selected == None)
    ensures TokenInvariant(after)
  {
  }

  lemma SelectKeepsTokens(s: System, c: Id, m: Id, v: Id)
    requires SystemInvariant(s) && CanSelect(s.db, c, m, v)
    ensures TokenInvariant(s.(db := Selected(s.db, c, m, v)))
  {
    assert MessageInvariant(s.db, m);
    TokensKept(s, s.(db := Selected(s.db, c, m, v)));
  }

  lemma FinishKeepsTokens(s: System, c: Command)
    requires SystemInvariant(s) && c.Finish? && CanIssue(s, c)
    ensures TokenInvariant(Issue(s, c))
  {
  }

  lemma IssueKeepsTokens(s: System, c: Command)
    requires SystemInvariant(s) && CanIssue(s, c)
    ensures TokenInvariant(Issue(s, c))
  {
    match c
    case Ask(_, _, _, _, _, _) =>
    case Regenerate(_, _, _) =>
    case Finish(_, _, _, _) => FinishKeepsTokens(s, c);
    case Select(conversation, message, version) =>
      if CanSelect(s.db, conversation, message, version) {
        SelectKeepsTokens(s, conversation, message, version);
      }
    case _ => TokensKept(s, Issue(s, c));
  }

  /** After recovery nothing is generating, settled messages are as they were, and
      recovering again changes nothing. */
  lemma RecoveredSettles(db: Db)
    requires Invariant(db)
    ensures forall c :: !Running(Recovered(db), c)
    ensures Recovered(Recovered(db)) == Recovered(db)
    ensures forall m :: m in db.messages && db.messages[m].status != Generating ==> Recovered(db).messages[m] == db.messages[m]
  {
    forall m | m in db.messages ensures Recovered(db).messages[m].status != Generating {
      SelectedSettled(db, m);
    }
    assert Recovered(Recovered(db)).messages == Recovered(db).messages;
  }

  // --------------------------------------------------------------------- runs

  ghost predicate IsRun(states: seq<System>, commands: seq<Command>) {
    && |states| == |commands| + 1 && states[0] == START
    && forall i :: 0 <= i < |commands| ==> CanIssue(states[i], commands[i]) && states[i + 1] == Issue(states[i], commands[i])
  }

  lemma {:induction false} RunInvariant(states: seq<System>, commands: seq<Command>, i: nat)
    requires IsRun(states, commands) && i < |states|
    ensures SystemInvariant(states[i])
  {
    if i > 0 {
      RunInvariant(states, commands, i - 1);
      IssueKeepsDb(states[i - 1], commands[i - 1]);
      IssueKeepsTokens(states[i - 1], commands[i - 1]);
    }
  }

  /** At most one message of a conversation is marked as generating. */
  lemma OneMessageGenerating(states: seq<System>, commands: seq<Command>, i: nat, m: Id, n: Id)
    requires IsRun(states, commands) && i < |states|
    requires m in states[i].db.messages && n in states[i].db.messages
    requires states[i].db.messages[m].status == Generating && states[i].db.messages[n].status == Generating
    requires states[i].db.messages[m].conversation == states[i].db.messages[n].conversation
    ensures m == n
  {
    RunInvariant(states, commands, i);
  }

  /** A settled answer mirrors its selected version, which is one of its own, or is
      interrupted without one. */
  lemma SettledMirrorsSelected(states: seq<System>, commands: seq<Command>, i: nat, m: Id)
    requires IsRun(states, commands) && i < |states| && m in states[i].db.messages
    requires states[i].db.messages[m].role == Assistant && states[i].db.messages[m].status != Generating
    ensures var db := states[i].db;
            match db.messages[m].selected
            case None => db.messages[m].status == Interrupted && forall v :: v in db.versions ==> db.versions[v].message != m
            case Some(v) => v in db.versions && db.versions[v].message == m && db.versions[v].status == db.messages[m].status
  {
    RunInvariant(states, commands, i);
    assert MessageInvariant(states[i].db, m);
  }

  /** The versions of an answer are numbered 1, 2, 3, ... and from 2 on completed. */
  lemma {:induction false} VersionNumbers(states: seq<System>, commands: seq<Command>, i: nat, v: Id, k: nat)
    requires IsRun(states, commands) && i < |states| && v in states[i].db.versions
    ensures var db := states[i].db;
            && db.versions[v].number >= 1
            && (db.versions[v].number >= 2 ==> db.versions[v].status == Completed)
            && (1 <= k <= db.versions[v].number ==> exists w :: w in db.versions && db.versions[w].message == db.versions[v].message && db.versions[w].number == k)
            && (forall w :: w in db.versions && db.versions[w].message == db.versions[v].message && db.versions[w].number == db.versions[v].number ==> w == v)
    decreases states[i].db.versions[v].number
  {
    var db := states[i].db;
    RunInvariant(states, commands, i);
    assert VersionInvariant(db, v);
    if 1 <= k < db.versions[v].number {
      assert HasPreviousVersion(db, v);
      var w :| w in db.versions && db.versions[w].message == db.versions[v].message && db.versions[w].number + 1 == db.versions[v].number;
      VersionNumbers(states, commands, i, w, k);
    }
  }

  /** Answer versions are append-only: whatever happens later, a version stays as it was
      written for as long as its message exists. */
  lemma {:induction false} VersionsAppendOnly(states: seq<System>, commands: seq<Command>, i: nat, j: nat, v: Id)
    requires IsRun(states, commands) && i <= j < |states| && v in states[i].db.versions
    requires forall k :: i <= k <= j ==> states[i].db.versions[v].message in states[k].db.messages
    ensures v in states[j].db.versions && states[j].db.versions[v] == states[i].db.versions[v]
    decreases j
  {
    if i < j {
      VersionsAppendOnly(states, commands, i, j - 1, v);
      RunInvariant(states, commands, j - 1);
      assert VersionInvariant(states[j - 1].db, v);
      assert CanIssue(states[j - 1], commands[j - 1]);
    }
  }

  // ------------------------------------------------ where the history comes from

  /** The question is let in: its conversation exists and has no message marked as generating. */
  ghost predicate LetIn(s: System, e: Command) {
    && e.Ask? && e.conversation in s.db.titles
    && forall m :: m in s.db.messages && s.db.messages[m].conversation == e.conversation ==> s.db.messages[m].status != Generating
  }

  /** Of a stored message only the mark and the selection ever change. */
  lemma MessageFixed(s: System, e: Command, m: Id)
    requires CanIssue(s, e) && m in s.db.messages && m in Issue(s, e).db.messages
    ensures var x, y := s.db.messages[m], Issue(s, e).db.messages[m]; y == x.(status := y.status, selected := y.selected)
  {
  }

  /** A message comes in with the question that asks for it, and in no other way. */
  lemma QuestionStored(s: System, e: Command, m: Id)
    requires CanIssue(s, e) && m !in s.db.messages
    ensures m in Issue(s, e).db.messages <==> LetIn(s, e) && (m == e.user || m == e.assistant)
    ensures m in Issue(s, e).db.messages ==>
              Issue(s, e).db.messages[m] == if m == e.user then Message(e.conversation, e.ordinal, User, e.question, Completed, None, None)
                                            else Message(e.conversation, e.ordinal + 1, Assistant, "", Generating, Some(e.user), None)
  {
  }

  /** The answer was asked for by `e`, with its question. */
  ghost predicate AskedBy(db: Db, m: Id, e: Command)
    requires m in db.messages
  {
    var x := db.messages[m];
    && e.Ask? && e.assistant == m && x.conversation == e.conversation && x.ordinal == e.ordinal + 1
    && x.replyTo == Some(e.user) && e.user in db.messages && db.messages[e.user].content == e.question
  }

  /** Every answer belongs to a question that was let in, and shows it as it was asked. */
  lemma {:induction false} AnswerOrigin(states: seq<System>, commands: seq<Command>, i: nat, m: Id) returns (k: nat)
    requires IsRun(states, commands) && i < |states| && m in states[i].db.messages && states[i].db.messages[m].role == Assistant
    ensures k < i && LetIn(states[k], commands[k]) && AskedBy(states[i].db, m, commands[k])
  {
    var s, e := states[i - 1], commands[i - 1];
    assert CanIssue(s, e) && states[i] == Issue(s, e);
    RunInvariant(states, commands, i);
    assert MessageInvariant(states[i].db, m);
    if m in s.db.messages {
      MessageFixed(s, e, m);
      k := AnswerOrigin(states, commands, i - 1, m);
      MessageFixed(s, e, commands[k].user);
    } else {
      QuestionStored(s, e, m);
      QuestionStored(s, e, e.user);
      k := i - 1;
    }
  }

  /** What settling a generation stores: a first answer always and another one if it is
      completed becomes the selected version, with its text and status; otherwise no version
      changes and the answer goes back to the status of the selected one. */
  lemma AnswerStored(s: System, e: Command)
    requires CanIssue(s, e) && e.Finish? && s.tokens[e.token].message in s.db.messages
    requires s.db.messages[s.tokens[e.token].message].role == Assistant
    ensures var m, db := s.tokens[e.token].message, Issue(s, e).db;
            if s.tokens[e.token].first || e.answer.completed then
              && db.versions == s.db.versions[e.version := Version(m, e.number, e.answer.text, if e.answer.completed then Completed else Interrupted)]
              && db.messages[m].selected == Some(e.version) && db.messages[m].status == db.versions[e.version].status
            else
              && db.versions == s.db.versions && db.messages[m].selected == s.db.messages[m].selected
              && forall v :: db.messages[m].selected == Some(v) && v in db.versions ==> db.messages[m].status == db.versions[v].status
  {
  }

  /** The version was generated by `e` while it was in flight for its message. */
  ghost predicate GeneratedBy(x: Version, v: Id, s: System, e: Command) {
    && e.Finish? && e.version == v && e.token in s.tokens && s.tokens[e.token].message == x.message
    && x.text == e.answer.text && x.number == e.number && x.status == if e.answer.completed then Completed else Interrupted
  }

  lemma VersionStep(s: System, e: Command, v: Id)
    requires CanIssue(s, e) && v in Issue(s, e).db.versions
    ensures (v in s.db.versions && Issue(s, e).db.versions[v] == s.db.versions[v]) || GeneratedBy(Issue(s, e).db.versions[v], v, s, e)
  {
  }

  /** Every version is what a generation in flight for its message produced. */
  lemma {:induction false} VersionOrigin(states: seq<System>, commands: seq<Command>, i: nat, v: Id) returns (k: nat)
    requires IsRun(states, commands) && i < |states| && v in states[i].db.versions
    ensures k < i && GeneratedBy(states[i].db.versions[v], v, states[k], commands[k])
  {
    var s, e := states[i - 1], commands[i - 1];
    assert CanIssue(s, e) && states[i] == Issue(s, e);
    VersionStep(s, e, v);
    if v in s.db.versions && states[i].db.versions[v] == s.db.versions[v] {
      k := VersionOrigin(states, commands, i - 1, v);
    } else {
      k := i - 1;
    }
  }

  /** Titles are given at the start; only a question let in replaces the default title, by its
      first sixty characters. */
  lemma TitlesFollowQuestions(s: System, e: Command, c: Id)
    requires CanIssue(s, e) && c in Issue(s, e).db.titles
    ensures var title := Issue(s, e).db.titles[c];
            if c !in s.db.titles then e.Create? && e.conversation == c && title == e.title
            else if LetIn(s, e) && e.conversation == c && s.db.titles[c] == DEFAULT_TITLE then title <= e.question && |title| == (if |e.question| < 60 then |e.question| else 60)
            else title == s.db.titles[c]
  {
  }

  /** A selection of a version of that answer in that conversation shows it with its status and
      changes no other message; any other selection changes nothing at all. */
  lemma SelectionShows(s: System, e: Command, m: Id)
    requires CanIssue(s, e) && e.Select? && m in s.db.messages
    ensures var db := Issue(s, e).db;
            if && e.version in s.db.versions && s.db.versions[e.version].message == e.message
               && e.message in s.db.messages && s.db.messages[e.message].conversation == e.conversation then
              && db.versions == s.db.versions && m in db.messages
              && if m == e.message then db.messages[m].selected == Some(e.version) && db.messages[m].status == db.versions[e.version].status
                 else db.messages[m] == s.db.messages[m]
            else db == s.db
  {
  }

  /** The end of a generation takes the mark off its message, whichever way it ends. */
  lemma EndTakesMark(s: System, e: Command)
    requires SystemInvariant(s) && CanIssue(s, e) && (e.Finish? || e.Fail?) && s.tokens[e.token].message in s.db.messages
    ensures var m, db := s.tokens[e.token].message, Issue(s, e).db;
            && m in db.messages && db.messages[m].status != Generating
            && (e.Fail? ==> db.versions == s.db.versions && db.messages[m].selected == s.db.messages[m].selected)
            && (e.Fail? && s.tokens[e.token].first ==> db.messages[m].status == Interrupted)
            && e.token !in Issue(s, e).tokens
  {
    SelectedSettled(s.db, s.tokens[e.token].message);
  }

  /** Deleting takes away exactly the messages of the conversation and their versions. */
  lemma DeletionTakes(s: System, e: Command, m: Id, v: Id)
    requires Invariant(s.db) && CanIssue(s, e) && e.Delete? && m in s.db.messages && v in s.db.versions
    ensures var db := Issue(s, e).db;
            && (m in db.messages <==> s.db.messages[m].conversation != e.conversation) && (m in db.messages ==> db.messages[m] == s.db.messages[m])
            && (v in db.versions <==> s.db.versions[v].message in s.db.messages && s.db.messages[s.db.versions[v].message].conversation != e.conversation)
            && (v in db.versions ==> db.versions[v] == s.db.versions[v]) && e.conversation !in db.titles
  {
    assert MessageInvariant(s.db, m) && VersionInvariant(s.db, v);
    assert MessageInvariant(s.db, s.db.versions[v].message);
  }

  /** The conversation shown last is the one created, asked in or selected in last. */
  lemma LastShown(s: System, e: Command)
    requires CanIssue(s, e)
    ensures Issue(s, e).db.last ==
            if e.Create? || LetIn(s, e) || (e.Select? && CanSelect(s.db, e.conversation, e.message, e.version)) then Some(e.conversation)
            else if e.Delete? && e.conversation in s.db.titles && s.db.last == Some(e.conversation) then None
            else s.db.last
  {
  }

  // ------------------------------------------------------- generations in flight

  /** The generation works on a message of the conversation. */
  predicate InFlight(s: System, t: nat, c: Id) {
    t in s.tokens && s.tokens[t].message in s.db.messages && s.db.messages[s.tokens[t].message].conversation == c
  }

  ghost predicate OneInFlight(s: System, c: Id) {
    forall t, u :: InFlight(s, t, c) && InFlight(s, u, c) ==> t == u
  }

  /** The one generation in flight, if any, has its message marked. */
  ghost predicate Guarded(s: System, c: Id) {
    OneInFlight(s, c) && forall t :: InFlight(s, t, c) ==> s.db.messages[s.tokens[t].message].status == Generating
  }

  /** The command takes the mark off a message of the conversation that a generation still
      works on: a selection on that message, or a recovery. */
  ghost predicate Unmarks(s: System, e: Command, c: Id) {
    match e
    case Select(conversation, m, v) =>
      && CanSelect(s.db, conversation, m, v) && conversation == c && s.db.messages[m].status == Generating
      && exists t :: t in s.tokens && s.tokens[t].message == m
    case Recover =>
      exists t :: InFlight(s, t, c) && s.db.messages[s.tokens[t].message].status == Generating
    case _ => false
  }

  lemma StartKeepsGuard(s: System, e: Command, c: Id)
    requires SystemInvariant(s) && CanIssue(s, e) && Guarded(s, c) && (e.Ask? || e.Regenerate?)
    ensures Guarded(Issue(s, e), c)
  {
    var s' := Issue(s, e);
    if s' != s {
      var started := e.token;
      forall t | t != started ensures InFlight(s', t, c) <==> InFlight(s, t, c) {
        if t in s.tokens && e.Ask? {
          assert s.tokens[t].message != e.user && s.tokens[t].message != e.assistant;
        }
      }
      if InFlight(s', started, c) {
        assert !Running(s.db, c);
        assert forall t :: !InFlight(s, t, c);
      }
    }
  }

  /** A settling command touches no message but that of its own generation. */
  lemma SettleTouches(s: System, e: Command)
    requires CanIssue(s, e) && (e.Finish? || e.Fail? || e.Abandon?)
    ensures var s' := Issue(s, e);
            && s'.tokens == s.tokens - {e.token} && s'.db.messages.Keys == s.db.messages.Keys
            && (forall m :: m in s.db.messages ==> s'.db.messages[m].conversation == s.db.messages[m].conversation)
            && forall m :: m in s.db.messages && m != s.tokens[e.token].message ==> s'.db.messages[m] == s.db.messages[m]
  {
  }

  lemma SettleKeepsGuard(s: System, e: Command, c: Id)
    requires CanIssue(s, e) && Guarded(s, c) && (e.Finish? || e.Fail? || e.Abandon?)
    ensures Guarded(Issue(s, e), c)
  {
    var s' := Issue(s, e);
    SettleTouches(s, e);
    forall t | InFlight(s', t, c) ensures InFlight(s, t, c) && s'.db.messages[s.tokens[t].message] == s.db.messages[s.tokens[t].message] {
      assert InFlight(s, t, c) && t != e.token;
      assert !InFlight(s, e.token, c);
    }
  }

  lemma OtherKeepsGuard(s: System, e: Command, c: Id)
    requires SystemInvariant(s) && CanIssue(s, e) && Guarded(s, c) && !Unmarks(s, e, c)
    requires e.Create? || e.Delete? || e.Select? || e.Recover? || e.Crash?
    ensures Guarded(Issue(s, e), c)
  {
    var s' := Issue(s, e);
    forall t | InFlight(s', t, c) ensures InFlight(s, t, c) && s'.db.messages[s.tokens[t].message] == s.db.messages[s.tokens[t].message] {}
  }

  /** A conversation stays guarded through every command that takes no mark off. */
  lemma IssueKeepsGuard(s: System, e: Command, c: Id)
    requires SystemInvariant(s) && CanIssue(s, e) && Guarded(s, c) && !Unmarks(s, e, c)
    ensures Guarded(Issue(s, e), c)
  {
    if e.Ask? || e.Regenerate? {
      StartKeepsGuard(s, e, c);
    } else if e.Finish? || e.Fail? || e.Abandon? {
      SettleKeepsGuard(s, e, c);
    } else {
      OtherKeepsGuard(s, e, c);
    }
  }

  /** As long as no command has taken the mark off a message that a generation works on, at
      most one generation is in flight in a conversation. */
  lemma {:induction false} OneAnswerInFlight(states: seq<System>, commands: seq<Command>, i: nat, c: Id)
    requires IsRun(states, commands) && i < |states|
    requires forall k :: 0 <= k < i ==> !Unmarks(states[k], commands[k], c)
    ensures Guarded(states[i], c)
  {
    if i > 0 {
      OneAnswerInFlight(states, commands, i - 1, c);
      RunInvariant(states, commands, i - 1);
      IssueKeepsGuard(states[i - 1], commands[i - 1], c);
    }
  }

  /** Commands that can follow without taking a mark off in the conversation. */
  ghost predicate Follows(s: System, more: seq<Command>, c: Id)
    decreases |more|
  {
    more == [] || (CanIssue(s, more[0]) && !Unmarks(s, more[0], c) && Follows(Issue(s, more[0]), more[1..], c))
  }

  ghost function After(s: System, more: seq<Command>): System
    decreases |more|
  {
    if more == [] then s else After(Issue(s, more[0]), more[1..])
  }

  lemma {:induction false} GuardedStays(s: System, more: seq<Command>, c: Id)
    requires SystemInvariant(s) && Guarded(s, c) && Follows(s, more, c)
    ensures OneInFlight(After(s, more), c)
    decreases |more|
  {
    if more != [] {
      IssueKeepsGuard(s, more[0], c);
      IssueKeepsDb(s, more[0]);
      IssueKeepsTokens(s, more[0]);
      GuardedStays(Issue(s, more[0]), more[1..], c);
    }
  }

  /** Two generations can come to be in flight without another mark being taken off. */
  ghost predicate TwoPossible(s: System, c: Id) {
    exists more :: Follows(s, more, c) && !OneInFlight(After(s, more), c)
  }

  lemma {:induction false} LongerThanAll(ids: set<Id>) returns (id: Id)
    ensures forall x :: x in ids ==> |x| < |id|
  {
    if ids == {} {
      id := "";
    } else {
      var x :| x in ids;
      var y := LongerThanAll(ids - {x});
      id := if |x| < |y| then y else x + "-";
      assert forall z :: z in ids ==> z == x || z in ids - {x};
    }
  }

  lemma {:induction false} NextExists(s: set<nat>) returns (n: nat)
    ensures IsNext(s, 0, n)
  {
    if s == {} {
      n := 0;
    } else {
      var x :| x in s;
      var m := NextExists(s - {x});
      n := if s != {x} && x < m then m else x + 1;
      assert forall y :: y in s ==> y == x || y in s - {x};
    }
  }

  /** A question can be asked in a conversation in which nothing is marked. */
  lemma CanAsk(s: System, c: Id) returns (e: Command)
    requires c in s.db.titles && !Running(s.db, c)
    ensures e.Ask? && CanIssue(s, e) && e.conversation == c && e.token !in s.tokens
  {
    var user := LongerThanAll(s.db.messages.Keys + set t | t in s.tokens :: s.tokens[t].message);
    var token := AboveAll(s.tokens.Keys);
    var ordinal := NextExists(Ordinals(s.db, c));
    e := Ask(c, "?", user, user + "-", ordinal, token);
    forall t | t in s.tokens ensures |s.tokens[t].message| < |user| {}
  }

  /** A question asked while an unmarked generation is in flight makes two. */
  lemma AskMakesTwo(s: System, c: Id, t: nat) returns (more: seq<Command>)
    requires c in s.db.titles && !Running(s.db, c) && InFlight(s, t, c)
    ensures |more| == 1 && Follows(s, more, c) && !OneInFlight(After(s, more), c)
  {
    var e := CanAsk(s, c);
    more := [e];
    var s' := Issue(s, e);
    assert more[1..] == [] && Follows(s', [], c) && After(s', []) == s';
    assert After(s, more) == s';
    assert s.tokens[t].message != e.user && s.tokens[t].message != e.assistant;
    assert InFlight(s', t, c) && InFlight(s', e.token, c);
  }

  lemma UnguardedAllowsTwo(s: System, c: Id) returns (more: seq<Command>)
    requires SystemInvariant(s) && !Guarded(s, c)
    ensures Follows(s, more, c) && !OneInFlight(After(s, more), c)
  {
    if !OneInFlight(s, c) {
      more := [];
    } else {
      var t :| InFlight(s, t, c) && s.db.messages[s.tokens[t].message].status != Generating;
      assert MessageInvariant(s.db, s.tokens[t].message);
      if !Running(s.db, c) {
        more := AskMakesTwo(s, c, t);
      } else {
        var s' := Issue(s, Recover);
        RecoveredSettles(s.db);
        assert InFlight(s', t, c);
        var ask := AskMakesTwo(s', c, t);
        more := [Recover] + ask;
        assert more[1..] == ask;
      }
    }
  }

  /** From any state that keeps the invariant, two generations can come to be in flight in a
      conversation without another mark being taken off, if and only if it is not guarded. */
  lemma TwoIffUnguarded(s: System, c: Id)
    requires SystemInvariant(s)
    ensures TwoPossible(s, c) <==> !Guarded(s, c)
  {
    if Guarded(s, c) {
      forall more | Follows(s, more, c) ensures OneInFlight(After(s, more), c) {
        GuardedStays(s, more, c);
      }
    } else {
      var more := UnguardedAllowsTwo(s, c);
    }
  }

  /** Taking a mark off a message that a generation works on ends the guard: two can be in
      flight afterwards, and only after such a command. */
  lemma UnmarkingAllowsTwo(s: System, e: Command, c: Id)
    requires SystemInvariant(s) && CanIssue(s, e) && Guarded(s, c)
    ensures TwoPossible(Issue(s, e), c) <==> Unmarks(s, e, c)
  {
    var s' := Issue(s, e);
    IssueKeepsDb(s, e);
    IssueKeepsTokens(s, e);
    TwoIffUnguarded(s', c);
    if Unmarks(s, e, c) {
      UnmarkedIsUnguarded(s, e, c);
    } else {
      IssueKeepsGuard(s, e, c);
    }
  }

  lemma UnmarkedIsUnguarded(s: System, e: Command, c: Id)
    requires SystemInvariant(s) && CanIssue(s, e) && Unmarks(s, e, c)
    ensures !Guarded(Issue(s, e), c)
  {
    var s' := Issue(s, e);
    if e.Select? {
      var t :| t in s.tokens && s.tokens[t].message == e.message;
      assert VersionInvariant(s.db, e.version);
      assert InFlight(s', t, c);
    } else {
      var t :| InFlight(s, t, c) && s.db.messages[s.tokens[t].message].status == Generating;
      SelectedSettled(s.db, s.tokens[t].message);
      assert InFlight(s', t, c);
    }
  }

  /** One answered question, with a mark and generations in flight. */
  function Answered(status: Status, tokens: map<nat, Token>): System {
    System(Db(map["c" := "t"],
              map["u" := Message("c", 0, User, "?", Completed, None, None),
                  "a" := Message("c", 1, Assistant, "", status, Some("u"), Some("v"))],
              map["v" := Version("a", 1, "x", Completed)], Some("c")), tokens)
  }

  lemma RunThen(states: seq<System>, commands: seq<Command>, e: Command, after: System)
    requires IsRun(states, commands) && CanIssue(states[|commands|], e) && after == Issue(states[|commands|], e)
    ensures IsRun(states + [after], commands + [e])
  {
    var states', commands' := states + [after], commands + [e];
    forall i | 0 <= i < |commands'| ensures CanIssue(states'[i], commands'[i]) && states'[i + 1] == Issue(states'[i], commands'[i]) {
      if i < |commands| {
        assert states'[i] == states[i] && states'[i + 1] == states[i + 1] && commands'[i] == commands[i];
      }
    }
  }

  lemma FirstAnswer(created: System, ask: Command, finish: Command)
    requires created == Issue(START, Create("c", "t"))
    requires ask == Ask("c", "?", "u", "a", 0, 0) && finish == Finish(0, Answer("x", true), "v", 1)
    ensures CanIssue(START, Create("c", "t")) && CanIssue(created, ask)
    ensures CanIssue(Issue(created, ask), finish) && Issue(Issue(created, ask), finish) == Answered(Completed, map[])
  {
    assert Ordinals(created.db, "c") == {};
    var asked := Issue(created, ask);
    assert Numbers(asked.db, "a") == {};
    assert Issue(asked, finish).tokens == map[];
  }

  lemma SecondAnswer(tokens: map<nat, Token>, regenerate: Command, select: Command)
    requires tokens == map[1 := Token("a", false)]
    requires regenerate == Regenerate("c", "a", 1) && select == Select("c", "a", "v")
    ensures Issue(Answered(Completed, map[]), regenerate) == Answered(Generating, tokens)
    ensures Issue(Answered(Generating, tokens), select) == Answered(Completed, tokens)
    ensures Unmarks(Answered(Generating, tokens), select, "c")
  {
    assert tokens[1].message == "a";
  }

  lemma AskAgain(s: System, ask: Command)
    requires s == Answered(Completed, map[1 := Token("a", false)]) && ask == Ask("c", "?", "w", "b", 2, 2)
    ensures CanIssue(s, ask) && Issue(s, ask).tokens == map[1 := Token("a", false), 2 := Token("b", true)]
    ensures InFlight(Issue(s, ask), 1, "c") && InFlight(Issue(s, ask), 2, "c")
  {
    assert s.db.messages["u"].ordinal == 0 && s.db.messages["a"].ordinal == 1;
    assert Ordinals(s.db, "c") == {0, 1};
  }

  lemma AnsweredRun() returns (states: seq<System>, commands: seq<Command>)
    ensures IsRun(states, commands) && |commands| == 3 && states[3] == Answered(Completed, map[])
  {
    var create, ask, finish := Create("c", "t"), Ask("c", "?", "u", "a", 0, 0), Finish(0, Answer("x", true), "v", 1);
    var created := Issue(START, create);
    FirstAnswer(created, ask, finish);
    assert IsRun([START], []);
    RunThen([START], [], create, created);
    RunThen([START] + [created], [] + [create], ask, Issue(created, ask));
    RunThen([START] + [created] + [Issue(created, ask)], [] + [create] + [ask], finish, Answered(Completed, map[]));
    states := [START] + [created] + [Issue(created, ask)] + [Answered(Completed, map[])];
    commands := [] + [create] + [ask] + [finish];
  }

  /** A run that ends with two generations in flight in one conversation: another version of
      an answer is begun, a selection on that answer takes its mark off, and the next question
      is let in. */
  lemma TwoAnswersInFlight() returns (states: seq<System>, commands: seq<Command>)
    ensures IsRun(states, commands) && |commands| == 6 && commands[4] == Select("c", "a", "v")
    ensures states[6].tokens == map[1 := Token("a", false), 2 := Token("b", true)]
    ensures InFlight(states[6], 1, "c") && InFlight(states[6], 2, "c") && !OneInFlight(states[6], "c")
  {
    var regenerate, select, ask := Regenerate("c", "a", 1), Select("c", "a", "v"), Ask("c", "?", "w", "b", 2, 2);
    var tokens := map[1 := Token("a", false)];
    SecondAnswer(tokens, regenerate, select);
    AskAgain(Answered(Completed, tokens), ask);
    var last := Issue(Answered(Completed, tokens), ask);
    states, commands := AnsweredRun();
    RunThen(states, commands, regenerate, Answered(Generating, tokens));
    states, commands := states + [Answered(Generating, tokens)], commands + [regenerate];
    RunThen(states, commands, select, Answered(Completed, tokens));
    states, commands := states + [Answered(Completed, tokens)], commands + [select];
    RunThen(states, commands, ask, last);
    states, commands := states + [last], commands + [ask];
  }

  // ---------------------------------------------------------- the model's context

  /** An answer the next question may look back on. */
  ghost predicate Eligible(db: Db, c: Id, before: Option<nat>, m: Id) {
    && m in db.messages && db.messages[m].conversation == c && db.messages[m].role == Assistant
    && db.messages[m].status == Completed && SelectedStatus(db, m) == Completed
    && db.messages[m].selected.Some? && db.messages[m].selected.value in db.versions
    && db.messages[m].replyTo.Some? && db.messages[m].replyTo.value in db.messages
    && (before.Some? ==> db.messages[m].ordinal < before.value)
  }

  function Exchange(db: Db, m: Id): (string, string)
    requires m in db.messages && db.messages[m].replyTo.Some? && db.messages[m].replyTo.value in db.messages
    requires db.messages[m].selected.Some? && db.messages[m].selected.value in db.versions
  {
    (db.messages[db.messages[m].replyTo.value].content, db.versions[db.messages[m].selected.value].text)
  }

  function OrdinalOf(db: Db, m: Id): int {
    if m in db.messages then db.messages[m].ordinal else -1
  }

  /** The rows with the largest ordinals, at most four, in ascending order. */
  method LatestFour(db: Db, rows: seq<Id>) returns (chosen: seq<Id>)
    requires forall i, j :: 0 <= i < j < |rows| ==> OrdinalOf(db, rows[i]) != OrdinalOf(db, rows[j])
    ensures |chosen| == if |rows| < 4 then |rows| else 4
    ensures forall m :: m in chosen ==> m in rows
    ensures forall i, j :: 0 <= i < j < |chosen| ==> OrdinalOf(db, chosen[i]) < OrdinalOf(db, chosen[j])
    ensures forall m, k :: m in rows && m !in chosen && k in chosen ==> OrdinalOf(db, m) < OrdinalOf(db, k)
  {
    var latest := (a: Id, b: Id) => OrdinalOf(db, a) >= OrdinalOf(db, b);
    var sorted := Sort(rows, latest);
    SortedRows(db, rows);
    var n := if |sorted| < 4 then |sorted| else 4;
    chosen := ReversedFront(sorted, n);
    FrontIsLatest(db, sorted, n);
  }

  lemma SortedRows(db: Db, rows: seq<Id>)
    requires forall i, j :: 0 <= i < j < |rows| ==> OrdinalOf(db, rows[i]) != OrdinalOf(db, rows[j])
    ensures var sorted := Sort(rows, (a, b) => OrdinalOf(db, a) >= OrdinalOf(db, b));
            && |sorted| == |rows| && (forall m :: m in sorted <==> m in rows)
            && forall i, j :: 0 <= i < j < |sorted| ==> OrdinalOf(db, sorted[i]) > OrdinalOf(db, sorted[j])
  {
    var latest := (a: Id, b: Id) => OrdinalOf(db, a) >= OrdinalOf(db, b);
    var newer := (a: Id, b: Id) => OrdinalOf(db, a) > OrdinalOf(db, b);
    SortPermutes(rows, latest);
    SortAscending(rows, latest, newer);
    assert forall i, j :: 0 <= i < j < |rows| ==> newer(Sort(rows, latest)[i], Sort(rows, latest)[j]);
  }

  function ReversedFront(s: seq<Id>, n: nat): (r: seq<Id>)
    requires n <= |s|
    ensures |r| == n && forall i :: 0 <= i < n ==> r[i] == s[n - 1 - i]
  {
    seq(n, i requires 0 <= i < n => s[n - 1 - i])
  }

  lemma FrontIsLatest(db: Db, sorted: seq<Id>, n: nat)
    requires n <= |sorted|
    requires forall i, j :: 0 <= i < j < |sorted| ==> OrdinalOf(db, sorted[i]) > OrdinalOf(db, sorted[j])
    ensures var chosen := ReversedFront(sorted, n);
            && (forall m :: m in chosen ==> m in sorted)
            && (forall i, j :: 0 <= i < j < n ==> OrdinalOf(db, chosen[i]) < OrdinalOf(db, chosen[j]))
            && (forall m, k :: m in sorted && m !in chosen && k in chosen ==> OrdinalOf(db, m) < OrdinalOf(db, k))
  {
    var chosen := ReversedFront(sorted, n);
    forall i | 0 <= i < n ensures sorted[i] in chosen {
      assert chosen[n - 1 - i] == sorted[i];
    }
    forall m, k | m in sorted && m !in chosen && k in chosen ensures OrdinalOf(db, m) < OrdinalOf(db, k) {
      var x :| 0 <= x < |sorted| && sorted[x] == m;
      var y :| 0 <= y < n && chosen[y] == k;
    }
  }

  /** The chosen answers are eligible, in order, and no eligible newer one is left out. */
  ghost predicate AreLatest(db: Db, c: Id, before: Option<nat>, chosen: seq<Id>) {
    && (forall m :: m in chosen ==> Eligible(db, c, before, m))
    && (forall i, j :: 0 <= i < j < |chosen| ==> OrdinalOf(db, chosen[i]) < OrdinalOf(db, chosen[j]))
    && forall m, k :: Eligible(db, c, before, m) && m !in chosen && k in chosen ==> OrdinalOf(db, m) < OrdinalOf(db, k)
  }

  ghost predicate AreExchanges(db: Db, chosen: seq<Id>, pairs: seq<(string, string)>) {
    |chosen| == |pairs| && forall i :: 0 <= i < |chosen| ==>
                             && chosen[i] in db.messages && db.messages[chosen[i]].replyTo.Some? && db.messages[chosen[i]].replyTo.value in db.messages
                             && db.messages[chosen[i]].selected.Some? && db.messages[chosen[i]].selected.value in db.versions
                             && pairs[i].0 == db.messages[db.messages[chosen[i]].replyTo.value].content
                             && pairs[i].1 == db.versions[db.messages[chosen[i]].selected.value].text
  }

  /** The latest exchanges, at most four, oldest first. */
  method ConversationContext(db: Db, rows: seq<Id>, c: Id, before: Option<nat>) returns (pairs: seq<(string, string)>)
    requires Invariant(db) && Distinct(rows) && forall m :: m in rows <==> Eligible(db, c, before, m)
    ensures |pairs| == if |rows| < 4 then |rows| else 4
    ensures exists chosen :: AreLatest(db, c, before, chosen) && AreExchanges(db, chosen, pairs)
  {
    forall i, j | 0 <= i < j < |rows| ensures OrdinalOf(db, rows[i]) != OrdinalOf(db, rows[j]) {
      assert Eligible(db, c, before, rows[i]) && Eligible(db, c, before, rows[j]);
    }
    var latest := LatestFour(db, rows);
    forall i | 0 <= i < |latest| ensures Eligible(db, c, before, latest[i]) {
      assert latest[i] in latest;
    }
    pairs := seq(|latest|, i requires 0 <= i < |latest| && Eligible(db, c, before, latest[i]) => Exchange(db, latest[i]));
    assert AreLatest(db, c, before, latest);
    assert AreExchanges(db, latest, pairs);
  }

  /** Along a run the context tells what was asked and what was generated: every exchange is a
      question that was let in with a text that a generation for its answer produced. */
  lemma ContextOrigin(states: seq<System>, commands: seq<Command>, i: nat, c: Id, before: Option<nat>, m: Id) returns (k: nat, l: nat)
    requires IsRun(states, commands) && i < |states| && Eligible(states[i].db, c, before, m)
    ensures k < i && LetIn(states[k], commands[k]) && commands[k].conversation == c && commands[k].assistant == m
    ensures l < i && commands[l].Finish? && commands[l].answer.completed
    ensures commands[l].token in states[l].tokens && states[l].tokens[commands[l].token].message == m
    ensures Exchange(states[i].db, m) == (commands[k].question, commands[l].answer.text)
  {
    RunInvariant(states, commands, i);
    assert MessageInvariant(states[i].db, m);
    k := AnswerOrigin(states, commands, i, m);
    l := VersionOrigin(states, commands, i, states[i].db.messages[m].selected.value);
  }

  // --------------------------------------------------------- the stored tables

  class ConversationStore {
    var titles: map<Id, string>
    var messages: map<Id, Message>
    var versions: map<Id, Version>
    var last: Option<Id>

    ghost function Tables(): Db
      reads this
    {
      Db(titles, messages, versions, last)
    }

    constructor ()
      ensures Tables() == START.db
    {
      titles, messages, versions, last := map[], map[], map[], None;
    }

    method BeginTurn(c: Id, question: string, user: Id, assistant: Id) returns (r: Result<nat, Error>)
      modifies this
      ensures r == Err(ConversationNotFound) <==> c !in old(titles)
      ensures r == Err(AnswerRunning) <==> c in old(titles) && Running(old(Tables()), c)
      ensures r.Ok? ==> IsNext(Ordinals(old(Tables()), c), 0, r.value)
                        && Tables() == Begun(old(Tables()), c, question, user, assistant, r.value)
      ensures r.Err? ==> Tables() == old(Tables())
    {
      if c !in titles {
        return Err(ConversationNotFound);
      }
      if exists m :: m in messages && messages[m].conversation == c && messages[m].status == Generating {
        return Err(AnswerRunning);
      }
      var ordinals := set m | m in messages && messages[m].conversation == c :: messages[m].ordinal;
      var ordinal := NextAfter(ordinals, 0);
      messages := messages[user := Message(c, ordinal, User, question, Completed, None, None)];
      messages := messages[assistant := Message(c, ordinal + 1, Assistant, "", Generating, Some(user), None)];
      if titles[c] == DEFAULT_TITLE {
        titles := titles[c := if |question| <= 60 then question else question[..60]];
      } else {
        titles := titles[c := titles[c]];
      }
      last := Some(c);
      r := Ok(ordinal);
    }

    method BeginRegeneration(c: Id, m: Id) returns (r: Result<nat, Error>)
      modifies this
      ensures r == Err(AnswerRunning) <==> Running(old(Tables()), c)
      ensures r == Err(RegenerationUnavailable) <==> !Running(old(Tables()), c) && !CanRegenerate(old(Tables()), c, m)
      ensures r.Ok? ==> Tables() == WithStatus(old(Tables()), m, Generating) && r.value == old(messages)[m].ordinal
      ensures r.Err? ==> Tables() == old(Tables())
    {
      if exists k :: k in messages && messages[k].conversation == c && messages[k].status == Generating {
        return Err(AnswerRunning);
      }
      if !(&& m in messages && messages[m].conversation == c && messages[m].role == Assistant && messages[m].selected.Some?
           && messages[m].replyTo.Some? && messages[m].replyTo.value in messages) {
        return Err(RegenerationUnavailable);
      }
      messages := messages[m := messages[m].(status := Generating)];
      r := Ok(messages[m].ordinal);
    }

    method AppendAnswerVersion(m: Id, answer: Answer, version: Id) returns (r: Result<nat, Error>)
      modifies this
      ensures r == Err(MessageNotFound) <==> m !in old(messages) || old(messages)[m].role != Assistant
      ensures r.Ok? ==> IsNext(Numbers(old(Tables()), m), 1, r.value)
                        && Tables() == Appended(old(Tables()), m, answer, version, r.value)
      ensures r.Err? ==> r.error == MessageNotFound && Tables() == old(Tables())
    {
      if m !in messages || messages[m].role != Assistant {
        return Err(MessageNotFound);
      }
      var numbers := set v | v in versions && versions[v].message == m :: versions[v].number;
      var number := NextAfter(numbers, 1);
      versions := versions[version := Version(m, number, answer.text, StatusOf(answer))];
      messages := messages[m := messages[m].(selected := Some(version), status := StatusOf(answer))];
      r := Ok(number);
    }

    method MarkGenerationFailed(m: Id)
      modifies this
      ensures Tables() == WithStatus(old(Tables()), m, Interrupted)
    {
      if m in messages {
        messages := messages[m := messages[m].(status := Interrupted)];
      }
    }

    method RestoreSelectedAnswerStatus(m: Id)
      modifies this
      ensures Tables() == Restored(old(Tables()), m)
    {
      if m in messages {
        var chosen := messages[m].selected;
        var status := if chosen.Some? && chosen.value in versions then versions[chosen.value].status else Interrupted;
        messages := messages[m := messages[m].(status := status)];
      }
    }

    method SelectAnswerVersion(c: Id, m: Id, v: Id) returns (r: Result<(), Error>)
      modifies this
      ensures r.Ok? <==> CanSelect(old(Tables()), c, m, v)
      ensures r.Ok? ==> Tables() == Selected(old(Tables()), c, m, v)
      ensures r.Err? ==> r.error == VersionNotFound && Tables() == old(Tables())
    {
      if !(v in versions && versions[v].message == m && m in messages && messages[m].conversation == c) {
        return Err(VersionNotFound);
      }
      messages := messages[m := messages[m].(selected := Some(v), status := versions[v].status)];
      last := Some(c);
      r := Ok(());
    }

    method RecoverGeneratingMessages()
      modifies this
      ensures Tables() == Recovered(old(Tables()))
    {
      var before := messages;
      var todo := messages.Keys;
      while todo != {}
        invariant todo <= before.Keys && messages.Keys == before.Keys
        invariant titles == old(titles) && versions == old(versions) && last == old(last) && before == old(messages)
        invariant forall m :: m in before ==>
          messages[m] == if m in todo || before[m].status != Generating then before[m]
                         else before[m].(status := SelectedStatus(old(Tables()), m))
        decreases todo
      {
        var m :| m in todo;
        todo := todo - {m};
        if messages[m].status == Generating {
          RestoreSelectedAnswerStatus(m);
        }
      }
      assert messages == Recovered(old(Tables())).messages;
    }
  }
}
