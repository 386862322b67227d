/**
 * The admission rule of user sign-up: reject a malformed email, reject an
 * email some user already has, otherwise store the user with the password
 * replaced by its digest.
 */
module Signup {
  import opened Entities

  /** Some registered user has exactly this email (Go compares strings byte for byte). */
  predicate EmailTaken(users: seq<User>, email: string) {
    exists i :: 0 <= i < |users| && users[i].email == email
  }

  /** No two registered users share an email. */
  predicate EmailsUnique(users: seq<User>) {
    forall i, j :: 0 <= i < j < |users| ==> users[i].email != users[j].email
  }

  /** The record stored for an admitted request: name and email as sent, password digested. */
  function Stored(req: User, lib: Libraries): (u: User)
    ensures u.name == req.name && u.email == req.email
    ensures u.password == lib.digest(req.password)
  {
    req.(password := lib.digest(req.password))
  }

  /** The reply to a sign-up request and the users collection afterwards. */
  datatype Outcome = Outcome(reply: Reply, users: seq<User>)

  /**
   * The outcome of the request `req` against the collection `users`: exactly
   * one of 400 (malformed email), 409 (email taken) or 201 (one record
   * appended); only 201 changes the collection.
   */
  function Admit(users: seq<User>, req: User, lib: Libraries): (out: Outcome)
    ensures out.reply.status == STATUS_BAD_REQUEST <==> !lib.validEmail(req.email)
    ensures out.reply.status == STATUS_CONFLICT <==> lib.validEmail(req.email) && EmailTaken(users, req.email)
    ensures out.reply.status == STATUS_CREATED <==> lib.validEmail(req.email) && !EmailTaken(users, req.email)
    ensures out.reply.status != STATUS_CREATED ==> out.users == users
    ensures out.reply.status == STATUS_CREATED ==>
      && |out.users| == |users| + 1
      && out.users[..|users|] == users
      && out.users[|users|].name == req.name
      && out.users[|users|].email == req.email
      && out.users[|users|].password == lib.digest(req.password)
  {
    if !lib.validEmail(req.email) then
      Outcome(Reply(STATUS_BAD_REQUEST, Message(INVALID_EMAIL_TEXT)), users)
    else if EmailTaken(users, req.email) then
      Outcome(Reply(STATUS_CONFLICT, Message(DUPLICATE_EMAIL_TEXT)), users)
    else
      Outcome(Reply(STATUS_CREATED, InsertAck), users + [Stored(req, lib)])
  }

  /** The email check comes before the scan: a malformed email gets the same 400 whatever is stored. */
  lemma InvalidEmailIgnoresUsers(users1: seq<User>, users2: seq<User>, req: User, lib: Libraries)
    requires !lib.validEmail(req.email)
    ensures Admit(users1, req, lib).reply == Admit(users2, req, lib).reply
    ensures Admit(users1, req, lib).users == users1
  {
  }

  /** Sign-up keeps the emails of a collection pairwise distinct. */
  lemma AdmitKeepsEmailsUnique(users: seq<User>, req: User, lib: Libraries)
    requires EmailsUnique(users)
    ensures EmailsUnique(Admit(users, req, lib).users)
  {
    var out := Admit(users, req, lib);
    if out.reply.status == STATUS_CREATED {
      forall i, j | 0 <= i < j < |out.users| ensures out.users[i].email != out.users[j].email {
        if j == |users| {
          assert out.users[i] == users[i];
        } else {
          assert out.users[i] == users[i] && out.users[j] == users[j];
        }
      }
    }
  }

  /** After any request with a well-formed email, that email is registered. */
  lemma AdmittedEmailTaken(users: seq<User>, req: User, lib: Libraries)
    requires lib.validEmail(req.email)
    ensures EmailTaken(Admit(users, req, lib).users, req.email)
  {
    var out := Admit(users, req, lib);
    if out.reply.status == STATUS_CREATED {
      assert out.users[|users|].email == req.email;
    }
  }

  /**
   * Two sequential requests with the same well-formed email, whatever their
   * other fields: the first is created, the second gets 409 and stores nothing.
   */
  lemma SameEmailTwice(users: seq<User>, req1: User, req2: User, lib: Libraries)
    requires lib.validEmail(req1.email) && req2.email == req1.email
    requires !EmailTaken(users, req1.email)
    ensures var first := Admit(users, req1, lib);
      var second := Admit(first.users, req2, lib);
      && first.reply.status == STATUS_CREATED
      && second.reply.status == STATUS_CONFLICT
      && second.users == first.users
  {
    AdmittedEmailTaken(users, req1, lib);
  }
}
