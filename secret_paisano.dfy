/**
 * The program object: it holds the participant list, shuffles it in place to
 * draw the couples, and hands one message per couple to the mail transport,
 * addressed to the gifter (or, in test mode, to the sender's own address).
 */
module SecretPaisanoApp {
  import opened Paisanos
  import opened Drawing
  import opened Shuffle

  /** The two settings the drawing and the addressing depend on. */
  datatype Environment = Environment(test: bool, mailerEmail: string)

  /** The subject line of every message. */
  const Subject: string := "Paisano invisible!!!!"

  /**
   * One message handed to the mail transport. The rendered body is not modelled;
   * the couple it is rendered from stands for it.
   */
  datatype Envelope = Envelope(sender: string, to: string, subject: string, couple: Couple)

  /**
   * The address a participant's message goes to: the sender's own address in
   * test mode, the participant's address otherwise.
   */
  function GetEmail(env: Environment, paisano: Paisano): (to: string)
    ensures env.test ==> to == env.mailerEmail
    ensures !env.test ==> to == paisano.email
  {
    if env.test then env.mailerEmail else paisano.email
  }

  /** The message for one couple: from the sender, to the gifter's address. */
  function BuildEnvelope(env: Environment, couple: Couple): (e: Envelope)
    ensures e.sender == env.mailerEmail && e.subject == Subject && e.couple == couple
    ensures e.to == GetEmail(env, couple.gifter)
  {
    Envelope(env.mailerEmail, GetEmail(env, couple.gifter), Subject, couple)
  }

  /** The messages of a whole run, one per couple, in the couples' order. */
  function Envelopes(env: Environment, couples: seq<Couple>): (r: seq<Envelope>)
    ensures |r| == |couples| && forall i :: 0 <= i < |r| ==> r[i] == BuildEnvelope(env, couples[i])
  {
    seq(|couples|, i requires 0 <= i < |couples| => BuildEnvelope(env, couples[i]))
  }

  /** The messages for one more couple are those for the couples before it, then its own. */
  lemma EnvelopesExtend(env: Environment, couples: seq<Couple>, i: nat)
    requires i < |couples|
    ensures Envelopes(env, couples[..i + 1]) == Envelopes(env, couples[..i]) + [BuildEnvelope(env, couples[i])]
  {
    assert couples[..i + 1] == couples[..i] + [couples[i]];
  }

  /** The addresses the messages go to, in order. */
  function Recipients(envelopes: seq<Envelope>): (r: seq<string>)
    ensures |r| == |envelopes| && forall i :: 0 <= i < |r| ==> r[i] == envelopes[i].to
  {
    seq(|envelopes|, i requires 0 <= i < |envelopes| => envelopes[i].to)
  }

  /** The participants' own addresses, in order. */
  function Emails(paisanos: seq<Paisano>): (r: seq<string>)
    ensures |r| == |paisanos| && forall i :: 0 <= i < |r| ==> r[i] == paisanos[i].email
  {
    seq(|paisanos|, i requires 0 <= i < |paisanos| => paisanos[i].email)
  }

  /** In test mode the address does not depend on the participant at all. */
  lemma TestModeIgnoresParticipant(env: Environment, p: Paisano, q: Paisano)
    requires env.test
    ensures GetEmail(env, p) == GetEmail(env, q) == env.mailerEmail
  {
  }

  /**
   * Sending a drawing writes to every participant once, in the shuffled order,
   * each message telling its gifter about the previous participant; in test mode
   * every message goes to the sender instead.
   */
  lemma DrawingMessages(env: Environment, paisanos: seq<Paisano>)
    ensures |Envelopes(env, MakeCouples(paisanos))| == |paisanos|
    ensures !env.test ==> Recipients(Envelopes(env, MakeCouples(paisanos))) == Emails(paisanos)
    ensures env.test ==> forall i :: 0 <= i < |paisanos| ==>
      Recipients(Envelopes(env, MakeCouples(paisanos)))[i] == env.mailerEmail
  {
    var couples := MakeCouples(paisanos);
    var to := Recipients(Envelopes(env, couples));
    forall i | 0 <= i < |paisanos|
      ensures to[i] == GetEmail(env, paisanos[i])
    {
      assert couples[i].gifter == paisanos[i];
    }
    if !env.test {
      assert to == Emails(paisanos);
    }
  }

  /**
   * Message i of a drawing is about couple i: its gifter is participant i and
   * the recipient it names is participant i - 1 (the first names the last).
   */
  lemma MessageNamesRecipient(env: Environment, paisanos: seq<Paisano>, i: nat)
    requires i < |paisanos|
    ensures Envelopes(env, MakeCouples(paisanos))[i].couple.gifter == paisanos[i]
    ensures Envelopes(env, MakeCouples(paisanos))[i].couple.gifted == paisanos[PrevIndex(i, |paisanos|)]
  {
  }

  /** A fresh array holding the participants of `s`, in order. */
  method ToArray(s: seq<Paisano>) returns (a: array<Paisano>)
    ensures fresh(a) && a[..] == s
  {
    a := new Paisano[|s|](i requires 0 <= i < |s| => s[i]);
  }

  /**
   * The drawing of the object's participant array: shuffles it in place and
   * returns the couples of the shuffled order.
   */
  method GetCouples(paisanos: array<Paisano>, draws: seq<nat>) returns (r: seq<Couple>)
    requires ValidDraws(draws, paisanos.Length)
    modifies paisanos
    ensures paisanos[..] == FisherYates(old(paisanos[..]), draws, paisanos.Length)
    ensures multiset(paisanos[..]) == multiset(old(paisanos[..]))
    ensures r == MakeCouples(paisanos[..])
  {
    ShuffleInPlace(paisanos, draws);
    r := MakeCouples(paisanos[..]);
  }

  /** The drawing object of one run. */
  class SecretPaisano {
    const environment: Environment
    /** The participants; the drawing reorders them in place. */
    var paisanos: array<Paisano>
    /** The couples drawn from the shuffled participants. */
    var couples: seq<Couple>
    /** The messages handed to the mail transport so far. */
    var outbox: seq<Envelope>

    /** The couples are the drawing over the participants in their current order. */
    ghost predicate Valid()
      reads this`paisanos, this`couples, paisanos
    {
      couples == MakeCouples(paisanos[..])
    }

    /**
     * Takes the loaded participants, shuffles them with `draws` and draws the
     * couples; nothing has been sent yet.
     */
    constructor (environment: Environment, loaded: seq<Paisano>, draws: seq<nat>)
      requires ValidDraws(draws, |loaded|)
      ensures Valid() && fresh(paisanos)
      ensures this.environment == environment
      ensures paisanos[..] == FisherYates(loaded, draws, |loaded|)
      ensures multiset(paisanos[..]) == multiset(loaded)
      ensures outbox == []
    {
      var a := ToArray(loaded);
      this.environment := environment;
      paisanos := a;
      new;
      couples := GetCouples(paisanos, draws);
      outbox := [];
    }

    /**
     * Sends the drawing: one message per couple, in order. The couples are
     * still the drawing over the participants afterwards.
     */
    method Send()
      requires Valid()
      modifies this`outbox
      ensures Valid()
      ensures outbox == old(outbox) + Envelopes(environment, MakeCouples(paisanos[..]))
    {
      SendAll(couples);
    }

    /** The loop of the send: hands the message for each of `drawn`, in order, to the mail transport. */
    method SendAll(drawn: seq<Couple>)
      modifies this`outbox
      ensures outbox == old(outbox) + Envelopes(environment, drawn)
    {
      var i := 0;
      while i < |drawn|
        invariant 0 <= i <= |drawn|
        invariant outbox == old(outbox) + Envelopes(environment, drawn[..i])
      {
        SendEmail(drawn[i]);
        EnvelopesExtend(environment, drawn, i);
        i := i + 1;
      }
      assert drawn[..i] == drawn;
    }

    /** Hands the message for one couple to the mail transport. */
    method SendEmail(couple: Couple)
      modifies this`outbox
      ensures outbox == old(outbox) + [BuildEnvelope(environment, couple)]
    {
      var to := GetEmail(environment, couple.gifter);
      outbox := outbox + [Envelope(environment.mailerEmail, to, Subject, couple)];
    }
  }
}
