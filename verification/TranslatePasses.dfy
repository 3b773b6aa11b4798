/** Translating a whole chat in passes (agent/translate.py), with every decision kept in the message
    rows (core/message_store.py). One dialog, whose messages have distinct ids; each pass sends the newest
    open ones, up to a cap. */
module TranslatePasses {
  import opened Common
  import opened OrderedDicts

  datatype Message = Message(id: int, out: bool, text: Option<string>, translated: Option<string>)

  /** A stored row: the source text, and the decision for a language, "no translation" included. */
  datatype Row = Row(text: Option<string>, lang: Option<string>, translated: Option<string>)

  type Cache = map<int, Row>

  datatype Policy = Policy(target: string, cap: nat, hasLetters: string -> bool)

  predicate NeedsTranslation(p: Policy, text: Option<string>) {
    text.Some? && text.value != "" && p.hasLetters(text.value)
  }

  /** `get_message_translation` finds a decision. */
  predicate Known(c: Cache, p: Policy, m: Message) {
    m.id in c && c[m.id].lang == Some(p.target) && (m.text == None || c[m.id].text == m.text)
  }

  predicate Blank(c: Cache, p: Policy, m: Message) {
    !m.out && !Known(c, p, m) && !NeedsTranslation(p, m.text)
  }

  /** The messages only the model can decide. */
  predicate Open(c: Cache, p: Policy, m: Message) {
    !m.out && !Known(c, p, m) && NeedsTranslation(p, m.text)
  }

  function Blanks(c: Cache, p: Policy, ms: seq<Message>): seq<Message> {
    if ms == [] then [] else (if Blank(c, p, ms[0]) then [ms[0]] else []) + Blanks(c, p, ms[1..])
  }

  function Opens(c: Cache, p: Policy, ms: seq<Message>): seq<Message> {
    if ms == [] then [] else (if Open(c, p, ms[0]) then [ms[0]] else []) + Opens(c, p, ms[1..])
  }

  /** The most recent `cap` of them. */
  function Tail(ms: seq<Message>, cap: nat): seq<Message> {
    if |ms| > cap then ms[|ms| - cap..] else ms
  }

  function Lookup(answer: map<int, string>, id: int): Option<string> {
    if id in answer then Some(answer[id]) else None
  }

  /** The row after `upsert_message_for_translation` and `set_message_translation`. */
  function Decision(p: Policy, m: Message, answer: map<int, string>): Row {
    Row(m.text, Some(p.target), Lookup(answer, m.id))
  }

  function Decide(c: Cache, p: Policy, ms: seq<Message>, answer: map<int, string>): Cache
    decreases |ms|
  {
    if ms == [] then c else Decide(c[ms[0].id := Decision(p, ms[0], answer)], p, ms[1..], answer)
  }

  /** What one pass leaves in the rows; no answer means the call failed. */
  function Pass(c: Cache, p: Policy, ms: seq<Message>, answer: Option<map<int, string>>): Cache {
    var blanked := Decide(c, p, Blanks(c, p, ms), map[]);
    if answer.Some? then Decide(blanked, p, Tail(Opens(c, p, ms), p.cap), answer.value) else blanked
  }

  /** A message as the pass shows it, before and after the model's answer. */
  function Prepared(c: Cache, p: Policy, m: Message): Message {
    if m.out then m
    else if Known(c, p, m) then Message(m.id, m.out, m.text, c[m.id].translated)
    else if !NeedsTranslation(p, m.text) then Message(m.id, m.out, m.text, None)
    else m
  }

  ghost predicate DistinctIds(ms: seq<Message>) {
    forall i, j | 0 <= i < j < |ms| :: ms[i].id != ms[j].id
  }

  // --- folding decisions -------------------------------------------------------------------------------

  lemma {:induction false} DecideElsewhere(c: Cache, p: Policy, ms: seq<Message>, answer: map<int, string>, id: int)
    requires forall m | m in ms :: m.id != id
    ensures var d := Decide(c, p, ms, answer);
            (id in d <==> id in c) && (id in c ==> d[id] == c[id])
    decreases |ms|
  {
    if ms != [] {
      assert ms[0] in ms && forall m | m in ms[1..] :: m in ms;
      DecideElsewhere(c[ms[0].id := Decision(p, ms[0], answer)], p, ms[1..], answer, id);
    }
  }

  lemma {:induction false} DecideHere(c: Cache, p: Policy, ms: seq<Message>, answer: map<int, string>, m: Message)
    requires DistinctIds(ms) && m in ms
    ensures var d := Decide(c, p, ms, answer); m.id in d && d[m.id] == Decision(p, m, answer)
    decreases |ms|
  {
    var c' := c[ms[0].id := Decision(p, ms[0], answer)];
    if m == ms[0] {
      assert forall k | k in ms[1..] :: k.id != m.id;
      DecideElsewhere(c', p, ms[1..], answer, m.id);
    } else {
      assert m in ms[1..] && DistinctIds(ms[1..]);
      DecideHere(c', p, ms[1..], answer, m);
    }
  }

  lemma {:induction false} DecideSnoc(c: Cache, p: Policy, ms: seq<Message>, answer: map<int, string>, m: Message)
    ensures Decide(c, p, ms + [m], answer) == Decide(c, p, ms, answer)[m.id := Decision(p, m, answer)]
    decreases |ms|
  {
    if ms == [] {
      assert ms + [m] == [m] && [m][1..] == [];
    } else {
      assert (ms + [m])[1..] == ms[1..] + [m];
      DecideSnoc(c[ms[0].id := Decision(p, ms[0], answer)], p, ms[1..], answer, m);
    }
  }

  lemma {:induction false} FiltersIn(c: Cache, p: Policy, ms: seq<Message>, m: Message)
    ensures m in Opens(c, p, ms) <==> m in ms && Open(c, p, m)
    ensures m in Blanks(c, p, ms) <==> m in ms && Blank(c, p, m)
  {
    if ms != [] {
      FiltersIn(c, p, ms[1..], m);
      assert ms == [ms[0]] + ms[1..];
    }
  }

  lemma {:induction false} FiltersDistinct(c: Cache, p: Policy, ms: seq<Message>)
    requires DistinctIds(ms)
    ensures DistinctIds(Opens(c, p, ms)) && DistinctIds(Blanks(c, p, ms))
  {
    if ms != [] {
      FiltersDistinct(c, p, ms[1..]);
      var opens, blanks := Opens(c, p, ms[1..]), Blanks(c, p, ms[1..]);
      forall m | m in opens || m in blanks
        ensures m.id != ms[0].id
      {
        FiltersIn(c, p, ms[1..], m);
        assert m in ms[1..];
      }
      assert forall i | 0 <= i < |opens| :: opens[i] in opens;
      assert forall i | 0 <= i < |blanks| :: blanks[i] in blanks;
    }
  }

  // --- one pass ---------------------------------------------------------------------------------------------

  ghost predicate Sent(c: Cache, p: Policy, ms: seq<Message>, m: Message) {
    m in Tail(Opens(c, p, ms), p.cap)
  }

  lemma OtherIds(ms: seq<Message>, part: seq<Message>, m: Message)
    requires DistinctIds(ms) && m in ms && m !in part && forall k | k in part :: k in ms
    ensures forall k | k in part :: k.id != m.id
  {
  }

  /** One message, before and after a pass: what was sent now holds the model's answer, blank ones are
      decided, and nothing else about the chat's rows changes. */
  lemma PassDecides(c: Cache, p: Policy, ms: seq<Message>, answer: Option<map<int, string>>, m: Message)
    requires DistinctIds(ms) && m in ms
    ensures var d := Pass(c, p, ms, answer);
            if answer.Some? && Sent(c, p, ms, m) then
              m.id in d && d[m.id] == Row(m.text, Some(p.target), Lookup(answer.value, m.id))
            else if Blank(c, p, m) then m.id in d && d[m.id] == Row(m.text, Some(p.target), None)
            else (m.id in d <==> m.id in c) && (m.id in c ==> d[m.id] == c[m.id])
  {
    var blanks, sent := Blanks(c, p, ms), Tail(Opens(c, p, ms), p.cap);
    var blanked := Decide(c, p, blanks, map[]);
    BlankPart(c, p, ms, m);
    if answer.Some? {
      SentDistinct(c, p, ms);
      if m in sent {
        FiltersIn(c, p, ms, m);
        DecideHere(blanked, p, sent, answer.value, m);
      } else {
        forall k | k in sent ensures k in ms { FiltersIn(c, p, ms, k); }
        OtherIds(ms, sent, m);
        DecideElsewhere(blanked, p, sent, answer.value, m.id);
      }
    }
  }

  lemma SentDistinct(c: Cache, p: Policy, ms: seq<Message>)
    requires DistinctIds(ms)
    ensures DistinctIds(Tail(Opens(c, p, ms), p.cap))
  {
    FiltersDistinct(c, p, ms);
  }

  lemma BlankPart(c: Cache, p: Policy, ms: seq<Message>, m: Message)
    requires DistinctIds(ms) && m in ms
    ensures var d := Decide(c, p, Blanks(c, p, ms), map[]);
            if Blank(c, p, m) then m.id in d && d[m.id] == Decision(p, m, map[])
            else (m.id in d <==> m.id in c) && (m.id in c ==> d[m.id] == c[m.id])
  {
    var blanks := Blanks(c, p, ms);
    FiltersIn(c, p, ms, m);
    if Blank(c, p, m) {
      FiltersDistinct(c, p, ms);
      DecideHere(c, p, blanks, map[], m);
    } else {
      forall k | k in blanks ensures k in ms { FiltersIn(c, p, ms, k); }
      OtherIds(ms, blanks, m);
      DecideElsewhere(c, p, blanks, map[], m.id);
    }
  }

  /** A message stays open through a pass exactly when it was not sent, or the call failed. */
  lemma StaysOpen(c: Cache, p: Policy, ms: seq<Message>, answer: Option<map<int, string>>, m: Message)
    requires DistinctIds(ms) && m in ms
    ensures Open(Pass(c, p, ms, answer), p, m) <==> Open(c, p, m) && (answer == None || !Sent(c, p, ms, m))
    ensures Known(c, p, m) ==> Known(Pass(c, p, ms, answer), p, m) && Pass(c, p, ms, answer)[m.id] == c[m.id]
  {
    PassDecides(c, p, ms, answer, m);
    if Sent(c, p, ms, m) {
      FiltersIn(c, p, ms, m);
    }
  }

  // --- repeated passes ------------------------------------------------------------------------------------

  lemma {:induction false} OpensShrink(c: Cache, d: Cache, p: Policy, ms: seq<Message>, sent: set<Message>)
    requires forall m | m in ms :: Open(d, p, m) <==> Open(c, p, m) && m !in sent
    ensures Opens(d, p, ms) == KeysOutside(Opens(c, p, ms), sent)
  {
    if ms != [] {
      assert ms[0] in ms && forall m | m in ms[1..] :: m in ms;
      OpensShrink(c, d, p, ms[1..], sent);
      KeysOutsideAppend(if Open(c, p, ms[0]) then [ms[0]] else [], Opens(c, p, ms[1..]), sent);
    }
  }

  lemma WithoutItsTail(ms: seq<Message>, cap: nat)
    requires DistinctIds(ms)
    ensures KeysOutside(ms, set m | m in Tail(ms, cap)) == ms[..|ms| - |Tail(ms, cap)|]
  {
    var k := |ms| - |Tail(ms, cap)|;
    var sent := set m | m in Tail(ms, cap);
    assert ms == ms[..k] + ms[k..];
    KeysOutsideAppend(ms[..k], ms[k..], sent);
    KeysOutsideAll(ms[k..], sent);
    KeysOutsideNothing(ms[..k], sent);
  }

  lemma PassShrinks(c: Cache, p: Policy, ms: seq<Message>, answer: Option<map<int, string>>)
    requires DistinctIds(ms)
    ensures var sent := if answer.Some? then set m | m in Tail(Opens(c, p, ms), p.cap) else {};
            Opens(Pass(c, p, ms, answer), p, ms) == KeysOutside(Opens(c, p, ms), sent)
  {
    var sent := if answer.Some? then set m | m in Tail(Opens(c, p, ms), p.cap) else {};
    forall m | m in ms
      ensures Open(Pass(c, p, ms, answer), p, m) <==> Open(c, p, m) && m !in sent
    {
      StaysOpen(c, p, ms, answer, m);
    }
    OpensShrink(c, Pass(c, p, ms, answer), p, ms, sent);
  }

  /** A pass whose call succeeds takes exactly the newest `cap` open messages off the list; one whose
      call fails takes none. */
  lemma PassTakesTheTail(c: Cache, p: Policy, ms: seq<Message>, answer: Option<map<int, string>>)
    requires DistinctIds(ms)
    ensures var before := Opens(c, p, ms);
            var after := Opens(Pass(c, p, ms, answer), p, ms);
            after == if answer.Some? then before[..|before| - |Tail(before, p.cap)|] else before
  {
    var before := Opens(c, p, ms);
    PassShrinks(c, p, ms, answer);
    FiltersDistinct(c, p, ms);
    WithoutItsTail(before, p.cap);
    KeysOutsideNothing(before, {});
    assert answer == None ==> Opens(Pass(c, p, ms, answer), p, ms) == KeysOutside(before, {});
  }

  function Passes(c: Cache, p: Policy, ms: seq<Message>, answers: seq<map<int, string>>): Cache
    decreases |answers|
  {
    if answers == [] then c else Passes(Pass(c, p, ms, Some(answers[0])), p, ms, answers[1..])
  }

  /** All but the last `n`, or nothing. */
  function AllBut(ms: seq<Message>, n: nat): seq<Message> {
    if n >= |ms| then [] else ms[..|ms| - n]
  }

  lemma AllButTwice(ms: seq<Message>, cap: nat, n: nat)
    ensures ms[..|ms| - |Tail(ms, cap)|] == AllBut(ms, cap)
    ensures AllBut(AllBut(ms, cap), n) == AllBut(ms, n + cap)
  {
  }

  function Times(k: nat, cap: nat): (n: nat) {
    if k == 0 then 0 else Times(k - 1, cap) + cap
  }

  lemma {:induction false} TimesIsProduct(k: nat, cap: nat)
    ensures Times(k, cap) == k * cap
  {
    if k > 0 {
      TimesIsProduct(k - 1, cap);
    }
  }

  lemma AllButTimes(ms: seq<Message>, k: nat, cap: nat)
    ensures AllBut(ms, Times(0, cap)) == ms
    ensures k > 0 ==> AllBut(AllBut(ms, cap), Times(k - 1, cap)) == AllBut(ms, Times(k, cap))
  {
    if k > 0 {
      AllButTwice(ms, cap, Times(k - 1, cap));
    }
  }

  lemma FirstPass(c: Cache, p: Policy, ms: seq<Message>, answers: seq<map<int, string>>) returns (d: Cache)
    requires DistinctIds(ms) && answers != []
    ensures Passes(c, p, ms, answers) == Passes(d, p, ms, answers[1..])
    ensures Opens(d, p, ms) == AllBut(Opens(c, p, ms), p.cap)
  {
    d := Pass(c, p, ms, Some(answers[0]));
    PassTakesTheTail(c, p, ms, Some(answers[0]));
    AllButTwice(Opens(c, p, ms), p.cap, 0);
  }

  ghost predicate Converged(c: Cache, d: Cache, p: Policy, ms: seq<Message>, k: nat) {
    Opens(d, p, ms) == AllBut(Opens(c, p, ms), Times(k, p.cap))
  }

  lemma NoPass(c: Cache, p: Policy, ms: seq<Message>)
    ensures Converged(c, c, p, ms, 0)
  {
    AllButTimes(Opens(c, p, ms), 0, p.cap);
  }

  lemma OneMorePass(c: Cache, d: Cache, e: Cache, p: Policy, ms: seq<Message>, k: nat)
    requires k > 0 && Opens(d, p, ms) == AllBut(Opens(c, p, ms), p.cap) && Converged(d, e, p, ms, k - 1)
    ensures Converged(c, e, p, ms, k)
  {
    AllButTimes(Opens(c, p, ms), k, p.cap);
  }

  /** Each state of the rows has the open messages of the one before, less the newest `cap`. */
  ghost predicate Chain(trail: seq<Cache>, p: Policy, ms: seq<Message>) {
    forall i | 0 <= i < |trail| - 1 :: Opens(trail[i + 1], p, ms) == AllBut(Opens(trail[i], p, ms), p.cap)
  }

  lemma {:induction false} ChainConverges(trail: seq<Cache>, p: Policy, ms: seq<Message>, k: nat)
    requires k < |trail| && Chain(trail, p, ms)
    ensures Converged(trail[|trail| - 1 - k], trail[|trail| - 1], p, ms, k)
  {
    if k == 0 {
      NoPass(trail[|trail| - 1], p, ms);
    } else {
      var i := |trail| - 1 - k;
      ChainConverges(trail, p, ms, k - 1);
      assert Opens(trail[i + 1], p, ms) == AllBut(Opens(trail[i], p, ms), p.cap);
      OneMorePass(trail[i], trail[i + 1], trail[|trail| - 1], p, ms, k);
    }
  }

  lemma {:induction false} PassesLeaveATrail(c: Cache, p: Policy, ms: seq<Message>, answers: seq<map<int, string>>)
    returns (trail: seq<Cache>)
    requires DistinctIds(ms)
    ensures |trail| == |answers| + 1 && trail[0] == c && Chain(trail, p, ms)
    ensures trail[|answers|] == Passes(c, p, ms, answers)
    decreases |answers|
  {
    if answers == [] {
      trail := [c];
    } else {
      var d := FirstPass(c, p, ms, answers);
      var rest := PassesLeaveATrail(d, p, ms, answers[1..]);
      trail := [c] + rest;
    }
  }

  /** After `k` successful passes the open messages are the oldest ones, `k * cap` fewer than at first;
      once `k * cap` has reached their number, a further pass sends nothing. */
  lemma PassesConverge(c: Cache, p: Policy, ms: seq<Message>, answers: seq<map<int, string>>)
    requires DistinctIds(ms)
    ensures var left := Opens(Passes(c, p, ms, answers), p, ms);
            var n, done := |Opens(c, p, ms)|, |answers| * p.cap;
            if done >= n then left == [] && Tail(left, p.cap) == [] else left == Opens(c, p, ms)[..n - done]
  {
    var trail := PassesLeaveATrail(c, p, ms, answers);
    ChainConverges(trail, p, ms, |answers|);
    TimesIsProduct(|answers|, p.cap);
  }

  /** A decision, once in the rows, is the same after any number of passes. */
  lemma {:induction false} DecisionsLast(c: Cache, p: Policy, ms: seq<Message>, answers: seq<map<int, string>>,
                                         m: Message)
    requires DistinctIds(ms) && m in ms && Known(c, p, m)
    ensures var d := Passes(c, p, ms, answers); Known(d, p, m) && d[m.id] == c[m.id]
    decreases |answers|
  {
    if answers != [] {
      StaysOpen(c, p, ms, Some(answers[0]), m);
      DecisionsLast(Pass(c, p, ms, Some(answers[0])), p, ms, answers[1..], m);
    }
  }

  /** What was sent and answered holds that answer for good, and no later pass sends it again. */
  lemma SentOnce(c: Cache, p: Policy, ms: seq<Message>, answer: map<int, string>, later: seq<map<int, string>>,
                 m: Message)
    requires DistinctIds(ms) && Sent(c, p, ms, m)
    ensures var d := Passes(Pass(c, p, ms, Some(answer)), p, ms, later);
            m.id in d && d[m.id] == Decision(p, m, answer) && !Sent(d, p, ms, m)
  {
    FiltersIn(c, p, ms, m);
    PassDecides(c, p, ms, Some(answer), m);
    DecisionsLast(Pass(c, p, ms, Some(answer)), p, ms, later, m);
    var d := Passes(Pass(c, p, ms, Some(answer)), p, ms, later);
    FiltersIn(d, p, ms, m);
  }

  // --- the object -----------------------------------------------------------------------------------------

  lemma {:induction false} BlanksSnoc(c: Cache, p: Policy, ms: seq<Message>, m: Message)
    ensures Blanks(c, p, ms + [m]) == Blanks(c, p, ms) + (if Blank(c, p, m) then [m] else [])
  {
    if ms == [] {
      assert ms + [m] == [m] && [m][1..] == [];
    } else {
      assert (ms + [m])[1..] == ms[1..] + [m];
      BlanksSnoc(c, p, ms[1..], m);
    }
  }

  lemma {:induction false} OpensSnoc(c: Cache, p: Policy, ms: seq<Message>, m: Message)
    ensures Opens(c, p, ms + [m]) == Opens(c, p, ms) + (if Open(c, p, m) then [m] else [])
  {
    if ms == [] {
      assert ms + [m] == [m] && [m][1..] == [];
    } else {
      assert (ms + [m])[1..] == ms[1..] + [m];
      OpensSnoc(c, p, ms[1..], m);
    }
  }

  lemma NotYetTouched(c: Cache, p: Policy, ms: seq<Message>, i: nat)
    requires DistinctIds(ms) && i < |ms|
    ensures var d := Decide(c, p, Blanks(c, p, ms[..i]), map[]);
            (Known(d, p, ms[i]) <==> Known(c, p, ms[i])) && Prepared(d, p, ms[i]) == Prepared(c, p, ms[i])
  {
    var blanks := Blanks(c, p, ms[..i]);
    forall k | k in blanks
      ensures k.id != ms[i].id
    {
      FiltersIn(c, p, ms[..i], k);
      assert k in ms[..i];
    }
    DecideElsewhere(c, p, blanks, map[], ms[i].id);
  }

  class Translator {
    const p: Policy
    var rows: Cache

    constructor (p: Policy, rows: Cache)
      ensures this.p == p && this.rows == rows
    {
      this.p, this.rows := p, rows;
    }

    /** The first loop: blank messages are decided at once, cached ones shown, the rest collected. */
    method PrepareMessages(ms: seq<Message>) returns (result: seq<Message>, pending: seq<Message>)
      requires DistinctIds(ms)
      modifies this
      ensures rows == Decide(old(rows), p, Blanks(old(rows), p, ms), map[])
      ensures pending == Opens(old(rows), p, ms)
      ensures |result| == |ms| && forall i | 0 <= i < |ms| :: result[i] == Prepared(old(rows), p, ms[i])
    {
      result, pending := [], [];
      ghost var c := rows;
      for i := 0 to |ms|
        invariant rows == Decide(c, p, Blanks(c, p, ms[..i]), map[])
        invariant pending == Opens(c, p, ms[..i])
        invariant |result| == i && forall j | 0 <= j < i :: result[j] == Prepared(c, p, ms[j])
      {
        var m := ms[i];
        NotYetTouched(c, p, ms, i);
        BlanksSnoc(c, p, ms[..i], m);
        OpensSnoc(c, p, ms[..i], m);
        DecideSnoc(c, p, Blanks(c, p, ms[..i]), map[], m);
        assert ms[..i + 1] == ms[..i] + [m];
        assert Blanks(c, p, ms[..i]) + [] == Blanks(c, p, ms[..i]);
        result := result + [Prepared(rows, p, m)];
        if Open(rows, p, m) {
          pending := pending + [m];
        } else if Blank(rows, p, m) {
          rows := rows[m.id := Decision(p, m, map[])];
        }
      }
      assert ms[..|ms|] == ms;
    }

    /** `_translate_pending` after a successful call; the ids it reports are those it was given. */
    method StoreAnswers(pending: seq<Message>, answer: map<int, string>) returns (updates: map<int, Option<string>>)
      modifies this
      ensures rows == Decide(old(rows), p, pending, answer)
      ensures forall id :: id in updates <==> exists m :: m in pending && m.id == id
      ensures forall id | id in updates :: updates[id] == Lookup(answer, id)
    {
      updates := map[];
      for i := 0 to |pending|
        invariant rows == Decide(old(rows), p, pending[..i], answer)
        invariant forall id :: id in updates <==> exists m :: m in pending[..i] && m.id == id
        invariant forall id | id in updates :: updates[id] == Lookup(answer, id)
      {
        DecideSnoc(old(rows), p, pending[..i], answer, pending[i]);
        assert pending[..i + 1] == pending[..i] + [pending[i]];
        rows := rows[pending[i].id := Decision(p, pending[i], answer)];
        updates := updates[pending[i].id := Lookup(answer, pending[i].id)];
      }
      assert pending[..|pending|] == pending;
    }

    /** `translate_history`, when it is on. `payload` is what the model was sent; `answer` is what it
        would say to that, and is not used when nothing is pending. */
    method TranslateHistory(ms: seq<Message>, answer: Option<map<int, string>>)
      returns (result: seq<Message>, payload: seq<Message>)
      requires DistinctIds(ms)
      modifies this
      ensures rows == Pass(old(rows), p, ms, answer)
      ensures payload == Tail(Opens(old(rows), p, ms), p.cap)
      ensures |result| == |ms| && forall i | 0 <= i < |ms| :: result[i] == Shown(old(rows), p, ms, answer, ms[i])
    {
      ghost var c := rows;
      var prepared, pending := PrepareMessages(ms);
      payload := Tail(pending, p.cap);
      result := prepared;
      if payload != [] && answer.Some? {
        var updates := StoreAnswers(payload, answer.value);
        result := WithUpdates(prepared, updates);
        forall i | 0 <= i < |ms|
          ensures result[i] == Shown(c, p, ms, answer, ms[i])
        {
          UpdatedIsShown(c, p, ms, answer.value, updates, ms[i]);
        }
      }
    }
  }

  function Updated(m: Message, updates: map<int, Option<string>>): Message {
    if m.id in updates && updates[m.id].Some? then Message(m.id, m.out, m.text, updates[m.id]) else m
  }

  method WithUpdates(prepared: seq<Message>, updates: map<int, Option<string>>) returns (result: seq<Message>)
    ensures |result| == |prepared| && forall i | 0 <= i < |prepared| :: result[i] == Updated(prepared[i], updates)
  {
    result := [];
    for i := 0 to |prepared|
      invariant |result| == i && forall j | 0 <= j < i :: result[j] == Updated(prepared[j], updates)
    {
      result := result + [Updated(prepared[i], updates)];
    }
  }

  /** A message as the reader gets it. */
  ghost function Shown(c: Cache, p: Policy, ms: seq<Message>, answer: Option<map<int, string>>, m: Message): Message {
    if answer.Some? && Sent(c, p, ms, m) && m.id in answer.value
    then Message(m.id, m.out, m.text, Some(answer.value[m.id]))
    else Prepared(c, p, m)
  }

  lemma SameId(ms: seq<Message>, k: Message, m: Message)
    requires DistinctIds(ms) && k in ms && m in ms && k.id == m.id
    ensures k == m
  {
  }

  /** With distinct ids, an id among those sent belongs to the message sent. */
  lemma UpdatedIsSent(c: Cache, p: Policy, ms: seq<Message>, m: Message)
    requires DistinctIds(ms) && m in ms
    ensures (exists k :: k in Tail(Opens(c, p, ms), p.cap) && k.id == m.id) <==> Sent(c, p, ms, m)
  {
    forall k | Sent(c, p, ms, k) && k.id == m.id
      ensures k == m
    {
      FiltersIn(c, p, ms, k);
      SameId(ms, k, m);
    }
  }

  lemma UpdatedIsShown(c: Cache, p: Policy, ms: seq<Message>, answer: map<int, string>,
                       updates: map<int, Option<string>>,
                       m: Message)
    requires DistinctIds(ms) && m in ms
    requires forall id :: id in updates <==> exists k :: k in Tail(Opens(c, p, ms), p.cap) && k.id == id
    requires forall id | id in updates :: updates[id] == Lookup(answer, id)
    ensures Updated(Prepared(c, p, m), updates) == Shown(c, p, ms, Some(answer), m)
  {
    UpdatedIsSent(c, p, ms, m);
    assert m.id in updates <==> Sent(c, p, ms, m);
  }

  /** Whatever the model says: the reader gets as many messages, with the same ids, directions and texts
      in the same order; own messages and failed passes' open ones are untouched, decided ones show
      their decision. */
  lemma ReadersLoseNothing(c: Cache, p: Policy, ms: seq<Message>, answer: Option<map<int, string>>, m: Message)
    requires DistinctIds(ms) && m in ms
    ensures var shown := Shown(c, p, ms, answer, m);
            && shown.id == m.id && shown.out == m.out && shown.text == m.text
            && (m.out || (Open(c, p, m) && answer == None) ==> shown == m)
            && (!m.out && Known(c, p, m) ==> shown.translated == c[m.id].translated)
            && (Blank(c, p, m) ==> shown.translated == None)
            && (var d := Pass(c, p, ms, answer);
                !m.out && Known(d, p, m) && d[m.id].translated.Some? ==> shown.translated == d[m.id].translated)
  {
    PassDecides(c, p, ms, answer, m);
    if Sent(c, p, ms, m) {
      FiltersIn(c, p, ms, m);
    }
  }

  // --- each message, in plain words -------------------------------------------------------------------------

  /** The messages from others with at least one letter, for which the rows hold no decision for this
      language and text. */
  ghost function Undecided(c: Cache, p: Policy, ms: seq<Message>): set<Message> {
    set m | m in ms && !m.out && m.text.Some? && m.text.value != "" && p.hasLetters(m.text.value)
            && !(m.id in c && c[m.id].lang == Some(p.target) && c[m.id].text == m.text)
  }

  lemma UndecidedIsOpen(c: Cache, p: Policy, ms: seq<Message>, m: Message)
    ensures m in Undecided(c, p, ms) <==> m in ms && Open(c, p, m)
  {
  }

  lemma UndecidedStep(c: Cache, p: Policy, first: Message, rest: seq<Message>)
    requires first !in rest
    ensures |Undecided(c, p, [first] + rest)| == (if Open(c, p, first) then 1 else 0) + |Undecided(c, p, rest)|
  {
    var all, some := Undecided(c, p, [first] + rest), Undecided(c, p, rest);
    forall m
      ensures m in all <==> m in some || (m == first && Open(c, p, first))
    {
      UndecidedIsOpen(c, p, [first] + rest, m);
      UndecidedIsOpen(c, p, rest, m);
    }
    assert all == if Open(c, p, first) then some + {first} else some;
    UndecidedIsOpen(c, p, rest, first);
  }

  lemma {:induction false} UndecidedAreOpen(c: Cache, p: Policy, ms: seq<Message>)
    requires DistinctIds(ms)
    ensures |Undecided(c, p, ms)| == |Opens(c, p, ms)|
  {
    if ms == [] {
      assert Undecided(c, p, ms) == {};
    } else {
      UndecidedAreOpen(c, p, ms[1..]);
      assert ms[0] !in ms[1..];
      assert ms == [ms[0]] + ms[1..];
      UndecidedStep(c, p, ms[0], ms[1..]);
    }
  }

  lemma {:induction false} OpensAppend(c: Cache, p: Policy, a: seq<Message>, b: seq<Message>)
    ensures Opens(c, p, a + b) == Opens(c, p, a) + Opens(c, p, b)
  {
    if a == [] {
      assert a + b == b;
    } else {
      assert (a + b)[1..] == a[1..] + b;
      OpensAppend(c, p, a[1..], b);
    }
  }

  lemma NotAmong(c: Cache, p: Policy, ms: seq<Message>, part: seq<Message>, m: Message)
    requires m !in part
    ensures m !in Opens(c, p, part)
  {
    FiltersIn(c, p, part, m);
  }

  lemma InTailIff(a: seq<Message>, m: Message, b: seq<Message>, cap: nat)
    requires m !in a && m !in b
    ensures m in Tail(a + [m] + b, cap) <==> |b| < cap
  {
    var all := a + [m] + b;
    assert all[|a|] == m;
    assert forall j | 0 <= j < |all| && j != |a| :: all[j] != m;
    if |all| > cap {
      var n := |all| - cap;
      assert |b| < cap ==> all[n..][|a| - n] == m;
    }
  }

  /** A message is sent exactly when it is undecided and fewer than `cap` later ones are. */
  lemma SentExactlyWhen(c: Cache, p: Policy, ms: seq<Message>, i: nat)
    requires DistinctIds(ms) && i < |ms|
    ensures Sent(c, p, ms, ms[i])
            <==> ms[i] in Undecided(c, p, ms) && |Undecided(c, p, ms[i + 1..])| < p.cap
  {
    var m, before, after := ms[i], ms[..i], ms[i + 1..];
    UndecidedIsOpen(c, p, ms, m);
    UndecidedAreOpen(c, p, after);
    FiltersIn(c, p, ms, m);
    if Open(c, p, m) {
      assert ms == before + [m] + after;
      OpensAppend(c, p, before + [m], after);
      OpensAppend(c, p, before, [m]);
      assert Opens(c, p, [m]) == [m];
      NotAmong(c, p, ms, before, m);
      NotAmong(c, p, ms, after, m);
      InTailIff(Opens(c, p, before), m, Opens(c, p, after), p.cap);
    }
  }

  /** The row of a message in two states of the rows. */
  ghost predicate SameRow(c: Cache, d: Cache, id: int) {
    (id in d <==> id in c) && (id in c ==> d[id] == c[id])
  }

  /** One message through one pass, its row and what the reader gets. Own messages are left alone. A
      decision for this language and text is shown; a message without a text takes any decision for the
      language. Without letters it is decided as it stands. The newest `cap` others get what the model
      says, and the rest wait. */
  lemma PassMessageByMessage(c: Cache, p: Policy, ms: seq<Message>, answer: Option<map<int, string>>, i: nat)
    requires DistinctIds(ms) && i < |ms|
    ensures var m, d := ms[i], Pass(c, p, ms, answer);
            var shown := Shown(c, p, ms, answer, m);
            if m.out then SameRow(c, d, m.id) && shown == m
            else if m.id in c && c[m.id].lang == Some(p.target) && (m.text == None || c[m.id].text == m.text) then
              SameRow(c, d, m.id) && shown == Message(m.id, false, m.text, c[m.id].translated)
            else if m.text == None || m.text.value == "" || !p.hasLetters(m.text.value) then
              m.id in d && d[m.id] == Row(m.text, Some(p.target), None) && shown == Message(m.id, false, m.text, None)
            else if answer.Some? && |Undecided(c, p, ms[i + 1..])| < p.cap then
              var said := if m.id in answer.value then Some(answer.value[m.id]) else None;
              && m.id in d && d[m.id] == Row(m.text, Some(p.target), said)
              && shown == if said.Some? then Message(m.id, false, m.text, said) else m
            else SameRow(c, d, m.id) && shown == m
  {
    PassDecides(c, p, ms, answer, ms[i]);
    SentExactlyWhen(c, p, ms, i);
  }
}
