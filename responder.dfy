/** The sister's native responder, `SmsReceiver.onReceive`
    (android/app/src/main/java/com/sis/SmsReceiver.java): for each inbound PDU, the first trusted entry
    whose phone occurs in the sender and whose keyword occurs in the body, ignoring ASCII case, triggers
    one location reply to the sender. */
module Responder {
  import opened Wrappers
  import opened Text
  import opened Scan
  import opened Records
  import opened Phones
  import Lists

  const SmsReceivedAction: string := "android.provider.Telephony.SMS_RECEIVED"

  /** One PDU: its originating address and body, each possibly `null`. */
  datatype Pdu = Pdu(sender: Option<string>, body: Option<string>)

  /** An entry triggers a reply to a message: a non-empty phone that the raw sender contains and a
      non-empty keyword that the upper-cased body contains, upper-cased. */
  predicate Triggers(e: TrustedEntry, p: Pdu) {
    e.phone != [] && e.keyword != [] &&
    p.sender.Some? && RawSenderMatches(p.sender.value, e.phone) &&
    p.body.Some? && Contains(Upper(p.body.value), Upper(e.keyword))
  }

  /** The recipient of the reply to one PDU, if it gets one. `None` for the list stands for a
      `trusted_list` that is missing or empty text. */
  function ReplyTo(list: Option<Json<seq<TrustedEntry>>>, p: Pdu): (r: Option<string>)
    ensures r.Some? <==> (list.Some? && list.value.Decoded? &&
      exists i :: 0 <= i < |list.value.value| && Triggers(list.value.value[i], p))
    ensures r.Some? ==> p.sender == r
  {
    if list.Some? && list.value.Decoded? then
      match FirstIndex(list.value.value, e => Triggers(e, p))
      case Some(_) => p.sender
      case None => None
    else None
  }

  /** Replies to a sequence of PDUs, in order, at most one each. */
  function Replies(list: Option<Json<seq<TrustedEntry>>>, pdus: seq<Pdu>): (r: seq<string>)
    ensures |r| <= |pdus|
  {
    if pdus == [] then []
    else
      var init := pdus[..|pdus| - 1];
      Replies(list, init) + OptionList(ReplyTo(list, pdus[|pdus| - 1]))
  }

  function OptionList(r: Option<string>): seq<string> {
    if r.Some? then [r.value] else []
  }

  lemma RepliesStep(list: Option<Json<seq<TrustedEntry>>>, ps: seq<Pdu>, k: nat)
    requires k < |ps|
    ensures Replies(list, ps[..k + 1]) == Replies(list, ps[..k]) + OptionList(ReplyTo(list, ps[k]))
  {
    assert ps[..k + 1][..k] == ps[..k];
  }

  /** Each PDU is decided on its own: the replies to two batches are the replies to each. */
  lemma {:induction false} RepliesAppend(list: Option<Json<seq<TrustedEntry>>>, a: seq<Pdu>, b: seq<Pdu>)
    ensures Replies(list, a + b) == Replies(list, a) + Replies(list, b)
    decreases |b|
  {
    if b == [] {
      assert a + b == a;
    } else {
      var b', x := b[..|b| - 1], b[|b| - 1];
      assert b == b' + [x];
      assert a + b == (a + b') + [x];
      RepliesAppend(list, a, b');
      RepliesSnoc(list, a + b', x);
      RepliesSnoc(list, b', x);
      Lists.AppendAssoc(Replies(list, a), Replies(list, b'), OptionList(ReplyTo(list, x)));
    }
  }

  /** One more PDU adds its reply, if any, at the end. */
  lemma RepliesSnoc(list: Option<Json<seq<TrustedEntry>>>, ps: seq<Pdu>, p: Pdu)
    ensures Replies(list, ps + [p]) == Replies(list, ps) + OptionList(ReplyTo(list, p))
  {
    assert (ps + [p])[..|ps|] == ps;
  }

  /** Without a decodable list nothing is sent. */
  lemma {:induction false} NoListNoReplies(list: Option<Json<seq<TrustedEntry>>>, pdus: seq<Pdu>)
    requires list.None? || list.value.Malformed?
    ensures Replies(list, pdus) == []
    decreases |pdus|
  {
    if pdus != [] {
      NoListNoReplies(list, pdus[..|pdus| - 1]);
    }
  }

  /** Every reply goes to a sender that contains the phone of some trusted entry. */
  lemma {:induction false} RepliesGoToTrustedSenders(list: Option<Json<seq<TrustedEntry>>>, pdus: seq<Pdu>)
    ensures forall to :: to in Replies(list, pdus) ==>
      list.Some? && list.value.Decoded? &&
      exists e :: e in list.value.value && e.phone != [] && RawSenderMatches(to, e.phone)
    decreases |pdus|
  {
    if pdus != [] {
      RepliesGoToTrustedSenders(list, pdus[..|pdus| - 1]);
      var p := pdus[|pdus| - 1];
      if ReplyTo(list, p).Some? {
        var i :| 0 <= i < |list.value.value| && Triggers(list.value.value[i], p);
        assert list.value.value[i] in list.value.value;
      }
    }
  }

  /** The inner loop: the trusted entries in order, stopping at the first that triggers. */
  method MatchEntries(arr: seq<TrustedEntry>, p: Pdu) returns (matched: bool)
    ensures matched <==> exists i :: 0 <= i < |arr| && Triggers(arr[i], p)
  {
    matched := false;
    var i := 0;
    while i < |arr|
      invariant 0 <= i <= |arr|
      invariant forall j :: 0 <= j < i ==> !Triggers(arr[j], p)
    {
      var phone := arr[i].phone;
      var keyword := arr[i].keyword;
      if phone == [] || keyword == [] {
        i := i + 1;
        continue;
      }
      if p.sender.Some? && Contains(p.sender.value, phone) &&
         p.body.Some? && Contains(Upper(p.body.value), Upper(keyword)) {
        matched := true;
        break;
      }
      i := i + 1;
    }
  }

  /** `onReceive`: another action, or a missing bundle or PDU array, sends nothing; otherwise each PDU in
      turn gets the reply `ReplyTo` decides. */
  method OnReceive(action: string, pdus: Option<seq<Pdu>>, trustedList: Option<Json<seq<TrustedEntry>>>)
    returns (replies: seq<string>)
    ensures action != SmsReceivedAction || pdus.None? ==> replies == []
    ensures action == SmsReceivedAction && pdus.Some? ==> replies == Replies(trustedList, pdus.value)
  {
    replies := [];
    if action != SmsReceivedAction || pdus.None? {
      return;
    }
    var ps := pdus.value;
    var k := 0;
    while k < |ps|
      invariant 0 <= k <= |ps|
      invariant replies == Replies(trustedList, ps[..k])
    {
      var p := ps[k];
      RepliesStep(trustedList, ps, k);
      if trustedList.Some? && trustedList.value.Decoded? {
        var matched := MatchEntries(trustedList.value.value, p);
        assert matched <==> ReplyTo(trustedList, p).Some?;
        if matched {
          replies := replies + [p.sender.value];
        }
      }
      k := k + 1;
    }
    assert ps[..|ps|] == ps;
  }
}
