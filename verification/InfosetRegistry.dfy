/**
 The infoset registry: ids are handed out in order and never change.  Used through one entry point it
 pairs ids and keys one to one; mixing both entry points can store a key twice.
 */
module InfosetRegistry {
  import opened Wrappers
  import opened InfosetKey

  const MAX_ID := 0xFFFF_FFFF

  datatype Error = ZeroActions | InvalidEncoding | MismatchedActionCount | TooManyInfosets | UnknownId

  /** The four tables of the registry as one value. */
  datatype Tables = Tables(
    keyToId: map<string, nat>,
    hunlToId: map<Encoding, nat>,
    idToKey: seq<string>,
    actionCounts: seq<nat>)

  const EMPTY := Tables(map[], map[], [], [])

  /** Every table entry points at a slot that holds its key, and every stored key can be found. */
  ghost predicate Sound(t: Tables) {
    && |t.actionCounts| == |t.idToKey|
    && (forall key :: key in t.keyToId ==> t.keyToId[key] < |t.idToKey| && t.idToKey[t.keyToId[key]] == key)
    && (forall e :: e in t.hunlToId ==>
                      t.hunlToId[e] < |t.idToKey| && ValidEncoding(e) && t.idToKey[t.hunlToId[e]] == KeyText(e))
    && (forall i :: 0 <= i < |t.idToKey| ==> t.idToKey[i] in t.keyToId)
  }

  /** No key is stored under two ids. */
  ghost predicate OneToOne(t: Tables) {
    forall i, j :: 0 <= i < j < |t.idToKey| ==> t.idToKey[i] != t.idToKey[j]
  }

  /** `u` knows everything `t` knew, under the same ids. */
  ghost predicate Extends(t: Tables, u: Tables) {
    && t.idToKey <= u.idToKey && t.actionCounts <= u.actionCounts
    && (forall key :: key in t.keyToId ==> key in u.keyToId && u.keyToId[key] == t.keyToId[key])
    && (forall e :: e in t.hunlToId ==> e in u.hunlToId && u.hunlToId[e] == t.hunlToId[e])
  }

  function Known(t: Tables, id: nat, actionCount: nat): Result<nat, Error> {
    if id < |t.actionCounts| && t.actionCounts[id] == actionCount then Success(id) else Failure(MismatchedActionCount)
  }

  /** emplace keeps the id a key already has. */
  function Stored(t: Tables, key: string, actionCount: nat): Tables {
    t.(idToKey := t.idToKey + [key], actionCounts := t.actionCounts + [actionCount],
    keyToId := if key in t.keyToId then t.keyToId else t.keyToId[key := |t.idToKey|])
  }

  datatype Call = ByKey(key: string, actionCount: nat) | ByEncoding(encoding: Encoding, actionCount: nat)

  /** What a call answers and leaves behind; a refused call changes nothing. */
  function After(t: Tables, call: Call): (Tables, Result<nat, Error>) {
    if call.actionCount == 0 then (t, Failure(ZeroActions))
    else
      match call
      case ByKey(key, n) =>
        if key in t.keyToId then (t, Known(t, t.keyToId[key], n))
        else if |t.idToKey| > MAX_ID then (t, Failure(TooManyInfosets))
        else (Stored(t, key, n), Success(|t.idToKey|))
      case ByEncoding(e, n) =>
        if !ValidEncoding(e) then (t, Failure(InvalidEncoding))
        else if e in t.hunlToId then (t, Known(t, t.hunlToId[e], n))
        else if |t.idToKey| > MAX_ID then (t, Failure(TooManyInfosets))
        else
          var stored := Stored(t, KeyText(e), n);
          (stored.(hunlToId := stored.hunlToId[e := |t.idToKey|]), Success(|t.idToKey|))
  }

  /** The tables know the key or encoding of the call. */
  predicate Knows(t: Tables, call: Call) {
    match call
    case ByKey(key, _) => key in t.keyToId
    case ByEncoding(e, _) => e in t.hunlToId
  }

  function KnownId(t: Tables, call: Call): nat
    requires Knows(t, call)
  {
    match call
    case ByKey(key, _) => t.keyToId[key]
    case ByEncoding(e, _) => t.hunlToId[e]
  }

  /**
   A call is refused exactly when it has no actions, its encoding is invalid, it is known with another action count,
   or it is new and all ids of 32 bits are given out; then nothing changes. A known call is answered with its id, a new
   one with the next id, under which its key and action count are stored.
   */
  lemma AnsweredExactly(t: Tables, call: Call)
    requires Sound(t)
    ensures var (u, r) := After(t, call);
            && (r.Failure? <==>
                || call.actionCount == 0 || (call.ByEncoding? && !ValidEncoding(call.encoding))
                || (if Knows(t, call) then t.actionCounts[KnownId(t, call)] != call.actionCount
                    else |t.idToKey| >= 0x1_0000_0000))
            && (r.Failure? || Knows(t, call) ==> u == t)
            && (r.Success? ==> r.value == if Knows(t, call) then KnownId(t, call) else |t.idToKey|)
            && (r.Success? && !Knows(t, call) ==>
                  && u.actionCounts == t.actionCounts + [call.actionCount]
                  && u.idToKey == t.idToKey + [if call.ByKey? then call.key else KeyText(call.encoding)]
                  && Knows(u, call) && (call.ByEncoding? || KnownId(u, call) == r.value)
                  && (call.ByEncoding? ==> u.hunlToId[call.encoding] == r.value))
  {
    hide ValidEncoding, KeyText;
  }

  function Run(t: Tables, calls: seq<Call>): Tables
    decreases |calls|
  {
    if calls == [] then t else Run(After(t, calls[0]).0, calls[1..])
  }

  // ---------------------------------------------------------------- the class

  class Registry {
    var keyToId: map<string, nat>
    var hunlToId: map<Encoding, nat>
    var idToKey: seq<string>
    var actionCounts: seq<nat>

    function Value(): Tables
      reads this
    {
      Tables(keyToId, hunlToId, idToKey, actionCounts)
    }

    constructor ()
      ensures Value() == EMPTY
    {
      keyToId, hunlToId, idToKey, actionCounts := map[], map[], [], [];
    }

    method Intern(key: string, actionCount: nat) returns (r: Result<nat, Error>)
      requires Sound(Value())
      modifies this
      ensures (Value(), r) == After(old(Value()), ByKey(key, actionCount)) && Sound(Value())
    {
      AfterSound(Value(), ByKey(key, actionCount));
      if actionCount == 0 {
        return Failure(ZeroActions);
      }
      if key in keyToId {
        var id := keyToId[key];
        if actionCounts[id] != actionCount {
          return Failure(MismatchedActionCount);
        }
        return Success(id);
      }
      if |idToKey| > MAX_ID {
        return Failure(TooManyInfosets);
      }
      var id := |idToKey|;
      idToKey := idToKey + [key];
      actionCounts := actionCounts + [actionCount];
      keyToId := keyToId[key := id];
      return Success(id);
    }

    method InternEncoding(e: Encoding, actionCount: nat) returns (r: Result<nat, Error>)
      requires Sound(Value()) && Shaped(e)
      modifies this
      ensures (Value(), r) == After(old(Value()), ByEncoding(e, actionCount)) && Sound(Value())
    {
      hide ValidEncoding, KeyText;
      AfterSound(Value(), ByEncoding(e, actionCount));
      if actionCount == 0 {
        return Failure(ZeroActions);
      }
      var ok := Validate(e);
      if !ok {
        return Failure(InvalidEncoding);
      }
      if e in hunlToId {
        var id := hunlToId[e];
        if actionCounts[id] != actionCount {
          return Failure(MismatchedActionCount);
        }
        return Success(id);
      }
      var key := BuildKey(e);
      if |idToKey| > MAX_ID {
        return Failure(TooManyInfosets);
      }
      var id := |idToKey|;
      idToKey := idToKey + [key.value];
      actionCounts := actionCounts + [actionCount];
      if key.value !in keyToId {
        keyToId := keyToId[key.value := id];
      }
      hunlToId := hunlToId[e := id];
      return Success(id);
    }

    method Find(key: string) returns (r: Option<nat>)
      requires Sound(Value())
      ensures r.Some? <==> key in idToKey
      ensures r.Some? ==> r.value < |idToKey| && idToKey[r.value] == key
    {
      if key in keyToId {
        return Some(keyToId[key]);
      }
      return None;
    }

    /** Answers from every id handed out, with a key that can be found, under that id if no key is stored twice. */
    method KeyFor(id: nat) returns (r: Result<string, Error>)
      requires Sound(Value())
      ensures r == Failure(UnknownId) <==> id >= |idToKey|
      ensures r.Success? ==> id < |idToKey| && r.value == idToKey[id] && r.value in keyToId
      ensures r.Success? && OneToOne(Value()) ==> keyToId[r.value] == id
    {
      if id >= |idToKey| {
        return Failure(UnknownId);
      }
      return Success(idToKey[id]);
    }

    method Clear()
      modifies this
      ensures Value() == EMPTY
    {
      keyToId, hunlToId, idToKey, actionCounts := map[], map[], [], [];
    }
  }

  // ---------------------------------------------------------------- every run of calls

  lemma AfterSound(t: Tables, call: Call)
    requires Sound(t)
    ensures Sound(After(t, call).0) && Extends(t, After(t, call).0)
  {
    hide ValidEncoding, KeyText, Stored, Sound, Extends;
    NothingChanged(t);
    if After(t, call).0 != t {
      match call {
        case ByKey(key, n) => StoredSound(t, key, n);
        case ByEncoding(e, n) =>
          StoredSound(t, KeyText(e), n);
          EncodingSound(t, e, n);
      }
    }
  }

  lemma NothingChanged(t: Tables)
    requires Sound(t)
    ensures Extends(t, t)
  {
    hide ValidEncoding, KeyText;
  }

  lemma StoredSound(t: Tables, key: string, n: nat)
    requires Sound(t)
    ensures Sound(Stored(t, key, n)) && Extends(t, Stored(t, key, n))
  {
    hide ValidEncoding, KeyText;
    var u := Stored(t, key, n);
    forall i | 0 <= i < |u.idToKey| ensures u.idToKey[i] in u.keyToId {
      assert i < |t.idToKey| ==> u.idToKey[i] == t.idToKey[i];
    }
  }

  lemma EncodingSound(t: Tables, e: Encoding, n: nat)
    requires Sound(t) && ValidEncoding(e) && e !in t.hunlToId
    requires Sound(Stored(t, KeyText(e), n)) && Extends(t, Stored(t, KeyText(e), n))
    ensures var stored := Stored(t, KeyText(e), n);
            var u := stored.(hunlToId := stored.hunlToId[e := |t.idToKey|]);
            Sound(u) && Extends(t, u)
  {
    hide ValidEncoding, KeyText;
  }

  /** Tables stay sound, and no id, key or action count ever changes once given. */
  lemma {:induction false} RunIsStable(t: Tables, calls: seq<Call>)
    requires Sound(t)
    ensures Sound(Run(t, calls)) && Extends(t, Run(t, calls))
    decreases |calls|
  {
    hide After;
    if calls != [] {
      AfterSound(t, calls[0]);
      RunIsStable(After(t, calls[0]).0, calls[1..]);
    }
  }

  /** The entry a call is answered from. */
  ghost predicate Recorded(t: Tables, call: Call, id: nat) {
    && id < |t.actionCounts| && t.actionCounts[id] == call.actionCount
    && match call
       case ByKey(key, _) => key in t.keyToId && t.keyToId[key] == id
       case ByEncoding(e, _) => ValidEncoding(e) && e in t.hunlToId && t.hunlToId[e] == id
  }

  lemma AnswerIsRecorded(t: Tables, call: Call)
    requires Sound(t) && After(t, call).1.Success?
    ensures Recorded(After(t, call).0, call, After(t, call).1.value)
  {
    hide ValidEncoding, KeyText;
  }

  lemma RecordedAnswers(t: Tables, call: Call, id: nat, again: Call)
    requires Recorded(t, call, id) && again == call.(actionCount := again.actionCount) && again.actionCount > 0
    ensures After(t, again) ==
            (t, if again.actionCount == call.actionCount then Success(id) else Failure(MismatchedActionCount))
  {
    hide ValidEncoding, KeyText;
  }

  /** Asking again, however much later, gives the same id; asking with another action count is refused. */
  lemma AnswersRepeat(t: Tables, call: Call, calls: seq<Call>, again: Call)
    requires Sound(t) && After(t, call).1.Success?
    requires again == call.(actionCount := again.actionCount) && again.actionCount > 0
    ensures var later := Run(After(t, call).0, calls);
            After(later, again) ==
            (later, if again.actionCount == call.actionCount then After(t, call).1 else Failure(MismatchedActionCount))
  {
    hide ValidEncoding, KeyText, After, Sound, Run;
    AfterSound(t, call);
    AnswerIsRecorded(t, call);
    var first, id := After(t, call).0, After(t, call).1.value;
    RunIsStable(first, calls);
    RecordedAnswers(Run(first, calls), call, id, again);
  }

  /** The text a call interns. */
  function KeyOf(call: Call): string
    requires call.ByEncoding? ==> ValidEncoding(call.encoding)
  {
    match call
    case ByKey(key, _) => key
    case ByEncoding(e, _) => KeyText(e)
  }

  /**
   However much later, the key stored under an answered id is the key the call named, so key_for undoes
   intern; and while no key is stored twice, find undoes key_for.
   */
  lemma KeyRoundTrip(t: Tables, call: Call, calls: seq<Call>)
    requires Sound(t) && After(t, call).1.Success?
    ensures call.ByEncoding? ==> ValidEncoding(call.encoding)
    ensures var id, later := After(t, call).1.value, Run(After(t, call).0, calls);
            && id < |later.idToKey| && later.idToKey[id] == KeyOf(call) && KeyOf(call) in later.keyToId
            && (OneToOne(later) ==> later.keyToId[KeyOf(call)] == id)
  {
    hide ValidEncoding, KeyText, After, Run;
    AfterSound(t, call);
    AnswerIsRecorded(t, call);
    RunIsStable(After(t, call).0, calls);
  }

  /** The text entry point alone: ids and keys stay one to one. */
  lemma {:induction false} KeysAloneStayOneToOne(t: Tables, calls: seq<Call>)
    requires Sound(t) && OneToOne(t) && forall i :: 0 <= i < |calls| ==> calls[i].ByKey?
    ensures OneToOne(Run(t, calls))
    decreases |calls|
  {
    if calls != [] {
      AfterSound(t, calls[0]);
      KeysAloneStayOneToOne(After(t, calls[0]).0, calls[1..]);
    }
  }

  /** All keys came in as canonical encodings. */
  ghost predicate OnlyEncodings(t: Tables) {
    && (forall e :: e in t.hunlToId ==> Canonical(e))
    && (forall key :: key in t.keyToId ==> exists e :: e in t.hunlToId && KeyText(e) == key)
  }

  lemma EncodingStep(t: Tables, e: Encoding, n: nat)
    requires Sound(t) && OneToOne(t) && OnlyEncodings(t) && Canonical(e)
    ensures var u := After(t, ByEncoding(e, n)).0; Sound(u) && OneToOne(u) && OnlyEncodings(u)
  {
    hide ValidEncoding, KeyText, Sound, Extends;
    AfterSound(t, ByEncoding(e, n));
    var u := After(t, ByEncoding(e, n)).0;
    CanonicalIsValid(e);
    if u != t {
      NewCanonicalKey(t, e);
      NewKeyOneToOne(t, KeyText(e), n);
      forall key | key in u.keyToId ensures exists f :: f in u.hunlToId && KeyText(f) == key {
        if key in t.keyToId {
          var f :| f in t.hunlToId && KeyText(f) == key;
          assert f in u.hunlToId;
        } else {
          assert e in u.hunlToId;
        }
      }
    }
  }

  lemma CanonicalIsValid(e: Encoding)
    requires Canonical(e)
    ensures ValidEncoding(e)
  {
  }

  /** A canonical encoding not seen before prints to a key not seen before. */
  lemma NewCanonicalKey(t: Tables, e: Encoding)
    requires OnlyEncodings(t) && Canonical(e) && e !in t.hunlToId
    ensures ValidEncoding(e) && KeyText(e) !in t.keyToId
  {
    hide ValidEncoding, KeyText;
    CanonicalIsValid(e);
    forall f | f in t.hunlToId ensures Canonical(f) && (KeyText(f) == KeyText(e) <==> f == e) {
      CanonicalKeyInjective(e, f);
    }
  }

  lemma NewKeyOneToOne(t: Tables, key: string, n: nat)
    requires Sound(t) && OneToOne(t) && key !in t.keyToId
    ensures OneToOne(Stored(t, key, n))
  {
    hide ValidEncoding, KeyText;
  }

  /** The encoding entry point alone, on canonical encodings: one to one as well. */
  lemma {:induction false} EncodingsAloneStayOneToOne(t: Tables, calls: seq<Call>)
    requires Sound(t) && OneToOne(t) && OnlyEncodings(t)
    requires forall i :: 0 <= i < |calls| ==> calls[i].ByEncoding? && Canonical(calls[i].encoding)
    ensures var u := Run(t, calls); Sound(u) && OneToOne(u) && OnlyEncodings(u)
    decreases |calls|
  {
    hide After, Sound, OneToOne, OnlyEncodings;
    if calls != [] {
      EncodingStep(t, calls[0].encoding, calls[0].actionCount);
      EncodingsAloneStayOneToOne(After(t, calls[0]).0, calls[1..]);
    }
  }

  /** Two canonical encodings share an id if and only if they are the same encoding. */
  lemma IdsNameEncodings(t: Tables, a: Encoding, b: Encoding)
    requires Sound(t) && OneToOne(t) && OnlyEncodings(t)
    requires a in t.hunlToId && b in t.hunlToId
    ensures t.hunlToId[a] == t.hunlToId[b] <==> a == b
  {
    CanonicalKeyInjective(a, b);
  }

  /**
   A call breaks the pairing exactly when it is well formed, there is an id left, and its encoding is new
   but prints to a key that is already stored.
   */
  lemma DuplicatesExactly(t: Tables, call: Call)
    requires Sound(t) && OneToOne(t)
    ensures !OneToOne(After(t, call).0) <==>
            && call.ByEncoding? && call.actionCount > 0 && ValidEncoding(call.encoding) && |t.idToKey| <= MAX_ID
            && call.encoding !in t.hunlToId && KeyText(call.encoding) in t.keyToId
  {
    hide ValidEncoding, KeyText;
    var u := After(t, call).0;
    if call.ByEncoding? && ValidEncoding(call.encoding) && KeyText(call.encoding) in t.keyToId && u != t {
      var i, j := t.keyToId[KeyText(call.encoding)], |t.idToKey|;
      assert u.idToKey[i] == u.idToKey[j];
    }
  }

  /** Mixing the entry points does store a key twice: first as text, then as its encoding. */
  lemma MixedUseDuplicates(e: Encoding, n: nat)
    requires ValidEncoding(e) && n > 0
    ensures var t := Run(EMPTY, [ByKey(KeyText(e), n), ByEncoding(e, n)]);
            t.idToKey == [KeyText(e), KeyText(e)] && !OneToOne(t)
  {
    hide ValidEncoding, KeyText;
    var first, second := ByKey(KeyText(e), n), ByEncoding(e, n);
    var t1 := After(EMPTY, first).0;
    var t2 := After(t1, second).0;
    assert [first, second][1..] == [second] && [second][1..] == [];
    assert Run(t1, [second]) == Run(t2, []) == t2;
    assert t2.idToKey[0] == t2.idToKey[1];
  }
}
