/** Multi-key bindings: the sequence matcher and the keys it holds back
    (src/Bindings.h:11-31, src/Bindings.cpp:406-443,
    src/platform/InputController.cpp:99-126, :1235-1271). */
module KeySequence {

  datatype Key =
    | ShiftL | ShiftR | Shift | ControlL | ControlR | Control | AltL | AltR | Alt | SuperL | SuperR | Meta
    | Other(code: nat)

  /** Left and right modifier keys count as one. */
  function Normalize(k: Key): Key {
    match k
    case ShiftL => Shift
    case ShiftR => Shift
    case ControlL => Control
    case ControlR => Control
    case AltL => Alt
    case AltR => Alt
    case SuperL => Meta
    case SuperR => Meta
    case _ => k
  }

  datatype KeyStroke = KeyStroke(key: Key, mods: nat)

  predicate Same(a: KeyStroke, b: KeyStroke) {
    Normalize(a.key) == Normalize(b.key) && a.mods == b.mods
  }

  /** The names of one modifier key. */
  const SIDES: seq<set<Key>> := [{ShiftL, ShiftR, Shift}, {ControlL, ControlR, Control}, {AltL, AltR, Alt}, {SuperL, SuperR, Meta}]

  predicate Siblings(a: Key, b: Key) { exists i :: 0 <= i < |SIDES| && a in SIDES[i] && b in SIDES[i] }

  /** Two strokes are the same if they differ at most in the side of a modifier key. */
  lemma SameIff(a: KeyStroke, b: KeyStroke)
    ensures Same(a, b) <==> a.mods == b.mods && (a.key == b.key || Siblings(a.key, b.key))
  {
    assert SIDES[0] == {ShiftL, ShiftR, Shift} && SIDES[1] == {ControlL, ControlR, Control};
    assert SIDES[2] == {AltL, AltR, Alt} && SIDES[3] == {SuperL, SuperR, Meta};
  }

  type Action = nat

  datatype Binding = Binding(keys: seq<KeyStroke>, action: Action)

  datatype MatchResult = Match(actions: seq<Action>) | Prefix | NoMatch(aborted: seq<KeyStroke>)

  /** The binding starts with the strokes. */
  predicate Begins(b: Binding, strokes: seq<KeyStroke>) {
    |b.keys| >= |strokes| && forall i :: 0 <= i < |strokes| ==> Same(b.keys[i], strokes[i])
  }

  predicate Completes(b: Binding, strokes: seq<KeyStroke>) { |b.keys| == |strokes| && Begins(b, strokes) }

  predicate Extends(b: Binding, strokes: seq<KeyStroke>) { |b.keys| > |strokes| && Begins(b, strokes) }

  function Actions(bindings: seq<Binding>, strokes: seq<KeyStroke>): seq<Action> {
    if bindings == [] then []
    else
      var last := bindings[|bindings| - 1];
      Actions(bindings[..|bindings| - 1], strokes) + if Completes(last, strokes) then [last.action] else []
  }

  predicate AnyCompletes(bindings: seq<Binding>, strokes: seq<KeyStroke>) {
    exists i :: 0 <= i < |bindings| && Completes(bindings[i], strokes)
  }

  predicate AnyExtends(bindings: seq<Binding>, strokes: seq<KeyStroke>) {
    exists i :: 0 <= i < |bindings| && Extends(bindings[i], strokes)
  }

  lemma {:induction false} ActionsFound(bindings: seq<Binding>, strokes: seq<KeyStroke>)
    ensures Actions(bindings, strokes) != [] <==> AnyCompletes(bindings, strokes)
  {
    if bindings != [] {
      var rest, n := bindings[..|bindings| - 1], |bindings| - 1;
      ActionsFound(rest, strokes);
      if AnyCompletes(rest, strokes) {
        var i :| 0 <= i < |rest| && Completes(rest[i], strokes);
        assert Completes(bindings[i], strokes);
      }
      if AnyCompletes(bindings, strokes) && !Completes(bindings[n], strokes) {
        var i :| 0 <= i < |bindings| && Completes(bindings[i], strokes);
        assert Completes(rest[i], strokes);
      }
    }
  }

  lemma ActionsLast(bindings: seq<Binding>, strokes: seq<KeyStroke>)
    requires bindings != []
    ensures var rest, last := bindings[..|bindings| - 1], bindings[|bindings| - 1];
      Actions(bindings, strokes) == Actions(rest, strokes) + if Completes(last, strokes) then [last.action] else []
  {
  }

  lemma {:induction false} ActionsAppend(a: seq<Binding>, b: seq<Binding>, strokes: seq<KeyStroke>)
    ensures Actions(a + b, strokes) == Actions(a, strokes) + Actions(b, strokes)
  {
    if b == [] {
      assert a + b == a;
    } else {
      var n := |b| - 1;
      ActionsAppend(a, b[..n], strokes);
      ActionsLast(b, strokes);
      ActionsLast(a + b, strokes);
      hide Actions, Completes;
      assert (a + b)[..|a + b| - 1] == a + b[..n] && (a + b)[|a + b| - 1] == b[n];
    }
  }

  /** Each complete binding adds its action, in the order of the bindings. */
  lemma ActionsInOrder(a: seq<Binding>, b: Binding, c: seq<Binding>, strokes: seq<KeyStroke>)
    ensures Actions(a + [b] + c, strokes) ==
      Actions(a, strokes) + (if |b.keys| == |strokes| && (forall i :: 0 <= i < |strokes| ==> Same(b.keys[i], strokes[i])) then [b.action] else []) + Actions(c, strokes)
  {
    ActionsAppend(a, [b], strokes);
    ActionsAppend(a + [b], c, strokes);
    assert [b][..0] == [];
    assert Actions([], strokes) == [];
  }

  lemma ActionHeld(bindings: seq<Binding>, b: Binding, strokes: seq<KeyStroke>)
    requires b in bindings && Completes(b, strokes)
    ensures b.action in Actions(bindings, strokes) && AnyCompletes(bindings, strokes)
  {
    var i :| 0 <= i < |bindings| && bindings[i] == b;
    assert bindings == bindings[..i] + [b] + bindings[i + 1..];
    ActionsInOrder(bindings[..i], b, bindings[i + 1..], strokes);
  }

  /** What pressing one more key makes of the strokes matched so far. */
  function Outcome(strokes: seq<KeyStroke>, bindings: seq<Binding>): MatchResult
    requires strokes != []
  {
    if AnyCompletes(bindings, strokes) then Match(Actions(bindings, strokes))
    else if AnyExtends(bindings, strokes) then Prefix
    else NoMatch(strokes[..|strokes| - 1])
  }

  /** The strokes match if some binding is complete, wait if none is but one goes on, and are
      given up otherwise. */
  lemma OutcomeIff(strokes: seq<KeyStroke>, bindings: seq<Binding>)
    requires strokes != []
    ensures var o := Outcome(strokes, bindings);
      && (o.Match? <==> exists b :: b in bindings && |b.keys| == |strokes| && Begins(b, strokes))
      && (o.Prefix? <==> !o.Match? && exists b :: b in bindings && |b.keys| > |strokes| && Begins(b, strokes))
      && (o.NoMatch? ==> o.aborted + [strokes[|strokes| - 1]] == strokes)
  {
    hide Begins;
    if AnyCompletes(bindings, strokes) {
      var i :| 0 <= i < |bindings| && Completes(bindings[i], strokes);
      assert bindings[i] in bindings;
    }
    if AnyExtends(bindings, strokes) {
      var i :| 0 <= i < |bindings| && Extends(bindings[i], strokes);
      assert bindings[i] in bindings;
    }
  }

  function Progress(strokes: seq<KeyStroke>, bindings: seq<Binding>): seq<KeyStroke>
    requires strokes != []
  {
    if Outcome(strokes, bindings).Prefix? then strokes else []
  }

  class SequenceMatcher {
    var current: seq<KeyStroke>

    constructor ()
      ensures current == []
    {
      current := [];
    }

    method Advance(ks: KeyStroke, bindings: seq<Binding>) returns (result: MatchResult)
      modifies this
      ensures result == Outcome(old(current) + [ks], bindings)
      ensures current == Progress(old(current) + [ks], bindings)
    {
      current := current + [ks];
      var exactMatches: seq<Action> := [];
      var hasPrefix := false;
      for n := 0 to |bindings|
        invariant current == old(current) + [ks]
        invariant exactMatches == Actions(bindings[..n], current)
        invariant hasPrefix <==> AnyExtends(bindings[..n], current)
      {
        var b := bindings[n];
        OneMoreBinding(bindings, n, current);
        var agrees := |b.keys| >= |current|;
        if agrees {
          agrees := Compare(b.keys, current);
        }
        if agrees {
          if |b.keys| == |current| { exactMatches := exactMatches + [b.action]; } else { hasPrefix := true; }
        }
      }
      assert bindings[..|bindings|] == bindings;
      ActionsFound(bindings, current);
      if exactMatches != [] {
        Reset();
        return Match(exactMatches);
      }
      if hasPrefix { return Prefix; }
      var aborted: seq<KeyStroke> := [];
      if |current| > 1 { aborted := current[..|current| - 1]; }
      Reset();
      result := NoMatch(aborted);
    }

    method Reset()
      modifies this
      ensures current == []
    {
      current := [];
    }
  }

  method Compare(keys: seq<KeyStroke>, strokes: seq<KeyStroke>) returns (agrees: bool)
    requires |keys| >= |strokes|
    ensures agrees <==> forall i :: 0 <= i < |strokes| ==> Same(keys[i], strokes[i])
  {
    for i := 0 to |strokes|
      invariant forall j :: 0 <= j < i ==> Same(keys[j], strokes[j])
    {
      if Normalize(keys[i].key) != Normalize(strokes[i].key) || keys[i].mods != strokes[i].mods { return false; }
    }
    return true;
  }

  lemma OneMoreBinding(bindings: seq<Binding>, n: nat, strokes: seq<KeyStroke>)
    requires n < |bindings|
    ensures Actions(bindings[..n + 1], strokes) ==
      Actions(bindings[..n], strokes) + if Completes(bindings[n], strokes) then [bindings[n].action] else []
    ensures AnyExtends(bindings[..n + 1], strokes) <==> AnyExtends(bindings[..n], strokes) || Extends(bindings[n], strokes)
  {
    var more := bindings[..n + 1];
    assert more[..n] == bindings[..n] && more[n] == bindings[n];
    if AnyExtends(bindings[..n], strokes) {
      var i :| 0 <= i < n && Extends(bindings[..n][i], strokes);
      assert Extends(more[i], strokes);
    }
    if AnyExtends(more, strokes) && !Extends(bindings[n], strokes) {
      var i :| 0 <= i < |more| && Extends(more[i], strokes);
      assert Extends(bindings[..n][i], strokes);
    }
  }

  // ---------------------------------------------------------------- the keyboard

  datatype PendingKey = PendingKey(key: Key, scancode: nat, repeating: bool, mods: nat)

  function StrokeOf(p: PendingKey): KeyStroke { KeyStroke(p.key, p.mods) }

  function Strokes(s: seq<PendingKey>): (r: seq<KeyStroke>)
    ensures |r| == |s| && forall i :: 0 <= i < |s| ==> r[i] == StrokeOf(s[i])
  {
    seq(|s|, i requires 0 <= i < |s| => StrokeOf(s[i]))
  }

  /** What comes of the input: a key goes on to the shell, or a chord fires actions. */
  datatype Output = Sent(key: PendingKey) | Fired(chord: seq<PendingKey>, actions: seq<Action>)

  datatype Keyboard = Keyboard(current: seq<KeyStroke>, pending: seq<PendingKey>, pressed: seq<PendingKey>, outputs: seq<Output>)

  datatype Input = Press(key: PendingKey) | Timeout

  const IDLE := Keyboard([], [], [], [])

  function Send(keys: seq<PendingKey>): (r: seq<Output>)
    ensures |r| == |keys| && forall i :: 0 <= i < |keys| ==> r[i] == Sent(keys[i])
  {
    seq(|keys|, i requires 0 <= i < |keys| => Sent(keys[i]))
  }

  function Next(k: Keyboard, bindings: seq<Binding>, v: Input): Keyboard {
    match v
    case Press(p) =>
      var strokes := k.current + [StrokeOf(p)];
      var pressed := k.pressed + [p];
      (match Outcome(strokes, bindings)
       case Match(actions) => Keyboard([], [], pressed, k.outputs + [Fired(k.pending + [p], actions)])
       case Prefix => Keyboard(strokes, k.pending + [p], pressed, k.outputs)
       case NoMatch(aborted) =>
         var replayed := if aborted != [] then k.pending else [];
         Keyboard([], if aborted != [] then [] else k.pending, pressed, k.outputs + Send(replayed) + [Sent(p)]))
    case Timeout => Keyboard([], [], k.pressed, k.outputs + Send(k.pending))
  }

  /** The keys an output stands for. */
  function KeysOf(o: Output): seq<PendingKey> {
    match o
    case Sent(p) => [p]
    case Fired(chord, _) => chord
  }

  function AllKeys(s: seq<Output>): seq<PendingKey> {
    if s == [] then [] else AllKeys(s[..|s| - 1]) + KeysOf(s[|s| - 1])
  }

  /** No start of the strokes is a whole binding. */
  ghost predicate NoneComplete(bindings: seq<Binding>, strokes: seq<KeyStroke>, n: nat)
    requires n <= |strokes|
  {
    forall j :: 0 < j <= n ==> !AnyCompletes(bindings, strokes[..j])
  }

  /** A fired chord is a whole binding, fires that binding's actions, and nothing shorter
      would have fired. */
  ghost predicate Justified(bindings: seq<Binding>, o: Output) {
    o.Fired? ==>
      && o.chord != []
      && AnyCompletes(bindings, Strokes(o.chord))
      && o.actions == Actions(bindings, Strokes(o.chord))
      && NoneComplete(bindings, Strokes(o.chord), |o.chord| - 1)
  }

  ghost predicate Inv(k: Keyboard, bindings: seq<Binding>) {
    && k.pressed == AllKeys(k.outputs) + k.pending
    && k.current == Strokes(k.pending)
    && (k.current != [] ==> AnyExtends(bindings, k.current))
    && NoneComplete(bindings, k.current, |k.current|)
    && forall i :: 0 <= i < |k.outputs| ==> Justified(bindings, k.outputs[i])
  }

  lemma AllKeysNone()
    ensures AllKeys([]) == []
  {
  }

  lemma AllKeysLast(s: seq<Output>)
    requires s != []
    ensures AllKeys(s) == AllKeys(s[..|s| - 1]) + AllKeys([s[|s| - 1]])
  {
    AllKeysOne(s[|s| - 1]);
  }

  lemma {:induction false} AllKeysAppend(s: seq<Output>, t: seq<Output>)
    ensures AllKeys(s + t) == AllKeys(s) + AllKeys(t)
  {
    hide AllKeys;
    if t == [] {
      assert s + t == s;
      AllKeysNone();
    } else {
      AllKeysAppend(s, t[..|t| - 1]);
      AllKeysLast(t);
      AllKeysLast(s + t);
      assert (s + t)[..|s + t| - 1] == s + t[..|t| - 1] && (s + t)[|s + t| - 1] == t[|t| - 1];
    }
  }

  lemma {:induction false} AllKeysSend(keys: seq<PendingKey>)
    ensures AllKeys(Send(keys)) == keys
  {
    if keys != [] {
      var n := |keys| - 1;
      AllKeysSend(keys[..n]);
      assert Send(keys)[..n] == Send(keys[..n]);
      assert keys == keys[..n] + [keys[n]];
    }
  }

  lemma AllKeysOne(o: Output)
    ensures AllKeys([o]) == KeysOf(o)
  {
    assert [o][..0] == [];
  }

  lemma StrokesAppend(s: seq<PendingKey>, p: PendingKey)
    ensures Strokes(s + [p]) == Strokes(s) + [StrokeOf(p)]
  {
  }

  /** The strokes before the last one were no whole binding. */
  lemma StartsIncomplete(k: Keyboard, bindings: seq<Binding>, p: PendingKey)
    requires NoneComplete(bindings, k.current, |k.current|)
    ensures NoneComplete(bindings, k.current + [StrokeOf(p)], |k.current|)
  {
    var strokes := k.current + [StrokeOf(p)];
    forall j | 0 < j <= |k.current| ensures !AnyCompletes(bindings, strokes[..j]) {
      assert strokes[..j] == k.current[..j];
    }
  }

  lemma PressFires(k: Keyboard, bindings: seq<Binding>, p: PendingKey)
    requires Inv(k, bindings) && Outcome(k.current + [StrokeOf(p)], bindings).Match?
    ensures Inv(Next(k, bindings, Press(p)), bindings)
  {
    hide Actions, AnyCompletes, AnyExtends, AllKeys, Strokes;
    var fired := Fired(k.pending + [p], Actions(bindings, k.current + [StrokeOf(p)]));
    StrokesAppend(k.pending, p);
    StartsIncomplete(k, bindings, p);
    AllKeysAppend(k.outputs, [fired]);
    AllKeysOne(fired);
  }

  lemma PressWaits(k: Keyboard, bindings: seq<Binding>, p: PendingKey)
    requires Inv(k, bindings) && Outcome(k.current + [StrokeOf(p)], bindings).Prefix?
    ensures Inv(Next(k, bindings, Press(p)), bindings)
  {
    var strokes := k.current + [StrokeOf(p)];
    StrokesAppend(k.pending, p);
    StartsIncomplete(k, bindings, p);
    assert strokes[..|strokes|] == strokes;
  }

  lemma PressAborts(k: Keyboard, bindings: seq<Binding>, p: PendingKey)
    requires Inv(k, bindings) && Outcome(k.current + [StrokeOf(p)], bindings).NoMatch?
    ensures Inv(Next(k, bindings, Press(p)), bindings)
  {
    hide Actions, AnyCompletes, AnyExtends, AllKeys, Send;
    var aborted := Outcome(k.current + [StrokeOf(p)], bindings).aborted;
    assert aborted == k.current && |k.pending| == |k.current|;
    var t := Send(k.pending) + [Sent(p)];
    AllKeysAppend(k.outputs, t);
    AllKeysAppend(Send(k.pending), [Sent(p)]);
    AllKeysSend(k.pending);
    AllKeysOne(Sent(p));
    assert k.outputs + Send(k.pending) + [Sent(p)] == k.outputs + t;
  }

  lemma TimeoutKeeps(k: Keyboard, bindings: seq<Binding>)
    requires Inv(k, bindings)
    ensures Inv(Next(k, bindings, Timeout), bindings)
  {
    hide Actions, AnyCompletes, AnyExtends, AllKeys;
    AllKeysAppend(k.outputs, Send(k.pending));
    AllKeysSend(k.pending);
  }

  lemma StepKeepsInv(k: Keyboard, bindings: seq<Binding>, v: Input)
    requires Inv(k, bindings)
    ensures Inv(Next(k, bindings, v), bindings)
  {
    hide Inv;
    match v
    case Timeout => TimeoutKeeps(k, bindings);
    case Press(p) =>
      match Outcome(k.current + [StrokeOf(p)], bindings)
      case Match(_) => PressFires(k, bindings, p);
      case Prefix => PressWaits(k, bindings, p);
      case NoMatch(_) => PressAborts(k, bindings, p);
  }

  ghost predicate Run(boards: seq<Keyboard>, bindings: seq<Binding>, inputs: seq<Input>) {
    && |boards| == |inputs| + 1 && boards[0] == IDLE
    && forall i :: 0 <= i < |inputs| ==> boards[i + 1] == Next(boards[i], bindings, inputs[i])
  }

  /** Keystrokes are conserved: over every run of presses and timeouts the keys pressed
      are, in order, the keys sent on and the chords fired, then the keys held back; the
      held-back keys are the matcher's strokes, which are none or a proper start of some
      binding and never a whole one. */
  lemma {:induction false} KeysConserved(boards: seq<Keyboard>, bindings: seq<Binding>, inputs: seq<Input>, n: nat)
    requires Run(boards, bindings, inputs) && n < |boards|
    ensures Inv(boards[n], bindings)
  {
    if n > 0 {
      KeysConserved(boards, bindings, inputs, n - 1);
      StepKeepsInv(boards[n - 1], bindings, inputs[n - 1]);
    }
  }

  /** A binding that extends another never fires. */
  lemma LongerBindingNeverFires(boards: seq<Keyboard>, bindings: seq<Binding>, inputs: seq<Input>, n: nat, i: nat, short: Binding, long: Binding)
    requires Run(boards, bindings, inputs) && n < |boards| && i < |boards[n].outputs|
    requires short in bindings && long in bindings && short.keys != [] && Extends(long, short.keys)
    ensures boards[n].outputs[i].Fired? ==> !Completes(long, Strokes(boards[n].outputs[i].chord))
  {
    KeysConserved(boards, bindings, inputs, n);
    var o := boards[n].outputs[i];
    assert Justified(bindings, o);
    if o.Fired? && Completes(long, Strokes(o.chord)) {
      var j := |short.keys|;
      var strokes := Strokes(o.chord);
      forall x | 0 <= x < j ensures Same(short.keys[x], strokes[..j][x]) {
        assert Same(long.keys[x], short.keys[x]) && Same(long.keys[x], strokes[x]);
      }
      assert Completes(short, strokes[..j]);
    }
  }

  // ---------------------------------------------------------------- what comes of keys

  /** A timeout sends every key held back on, in order, and nothing is held any more. */
  lemma TimeoutReleases(k: Keyboard, bindings: seq<Binding>)
    ensures var t := Next(k, bindings, Timeout);
      && t.pending == [] && t.current == [] && t.pressed == k.pressed
      && |t.outputs| == |k.outputs| + |k.pending| && k.outputs <= t.outputs
      && forall i :: 0 <= i < |k.pending| ==> t.outputs[|k.outputs| + i] == Sent(k.pending[i])
  {
    hide Outcome;
  }

  lemma GivenUp(k: Keyboard, bindings: seq<Binding>, p: PendingKey)
    requires forall b :: b in bindings ==> !Begins(b, k.current + [StrokeOf(p)])
    ensures Outcome(k.current + [StrokeOf(p)], bindings) == NoMatch(k.current)
  {
    hide Begins, Actions;
    var strokes := k.current + [StrokeOf(p)];
    assert strokes[..|strokes| - 1] == k.current;
  }

  /** A key that no binding goes on with sends the keys held back on, in order, then
      itself. */
  lemma AbortReleases(k: Keyboard, bindings: seq<Binding>, p: PendingKey)
    requires Inv(k, bindings) && (forall b :: b in bindings ==> !Begins(b, k.current + [StrokeOf(p)]))
    ensures var t := Next(k, bindings, Press(p));
      && t.pending == [] && t.current == []
      && |t.outputs| == |k.outputs| + |k.pending| + 1 && k.outputs <= t.outputs
      && (forall i :: 0 <= i < |k.pending| ==> t.outputs[|k.outputs| + i] == Sent(k.pending[i]))
      && t.outputs[|k.outputs| + |k.pending|] == Sent(p)
  {
    hide AllKeys, Actions, Begins, Justified, NoneComplete;
    assert |k.current| == |k.pending|;
    GivenUp(k, bindings, p);
    hide Outcome, Inv;
  }

  /** `ps` are presses of the keys of the binding. */
  predicate Plays(b: Binding, ps: seq<PendingKey>) {
    |ps| == |b.keys| && forall i :: 0 <= i < |ps| ==> Same(b.keys[i], StrokeOf(ps[i]))
  }

  /** No proper start of the binding's keys is a whole binding. */
  ghost predicate Unshadowed(bindings: seq<Binding>, b: Binding) {
    forall j :: 0 < j < |b.keys| ==> !AnyCompletes(bindings, b.keys[..j])
  }

  lemma PlayedAlike(bindings: seq<Binding>, b: Binding, ps: seq<PendingKey>, j: nat)
    requires Plays(b, ps) && j <= |ps|
    ensures AnyCompletes(bindings, Strokes(ps[..j])) <==> AnyCompletes(bindings, b.keys[..j])
    ensures Begins(b, Strokes(ps[..j]))
  {
    var s, t := Strokes(ps[..j]), b.keys[..j];
    forall c: Binding ensures Completes(c, s) <==> Completes(c, t) {
      assert forall i :: 0 <= i < j ==> Same(t[i], s[i]);
    }
  }

  lemma PlayedOn(k: Keyboard, bindings: seq<Binding>, b: Binding, ps: seq<PendingKey>, j: nat)
    requires b in bindings && Plays(b, ps) && Unshadowed(bindings, b) && j < |ps|
    requires k.current == Strokes(ps[..j]) && k.pending == ps[..j]
    ensures var t := Next(k, bindings, Press(ps[j]));
      if j + 1 < |ps| then t.current == Strokes(ps[..j + 1]) && t.pending == ps[..j + 1] && t.outputs == k.outputs
      else t.current == [] && t.pending == [] && exists actions :: b.action in actions && t.outputs == k.outputs + [Fired(ps, actions)]
  {
    hide AnyCompletes, Actions, Begins, Plays;
    assert ps[..j + 1] == ps[..j] + [ps[j]];
    StrokesAppend(ps[..j], ps[j]);
    var strokes := Strokes(ps[..j + 1]);
    PlayedAlike(bindings, b, ps, j + 1);
    PlayLength(b, ps);
    if j + 1 < |ps| {
      assert Extends(b, strokes);
      var i :| 0 <= i < |bindings| && bindings[i] == b;
      assert AnyExtends(bindings, strokes);
    } else {
      assert ps[..j + 1] == ps;
      assert Completes(b, strokes);
      ActionHeld(bindings, b, strokes);
    }
  }

  lemma PlayLength(b: Binding, ps: seq<PendingKey>)
    requires Plays(b, ps)
    ensures |ps| == |b.keys|
  {
  }

  /** From `n` on the inputs are presses of the keys. */
  predicate Pressed(inputs: seq<Input>, n: nat, ps: seq<PendingKey>) {
    n + |ps| <= |inputs| && forall i :: 0 <= i < |ps| ==> inputs[n + i] == Press(ps[i])
  }

  lemma {:induction false} PlayedSoFar(boards: seq<Keyboard>, bindings: seq<Binding>, inputs: seq<Input>, n: nat, b: Binding, ps: seq<PendingKey>, j: nat)
    requires Run(boards, bindings, inputs) && Pressed(inputs, n, ps) && boards[n].pending == []
    requires b in bindings && Plays(b, ps) && Unshadowed(bindings, b) && j < |ps|
    ensures boards[n + j].pending == ps[..j] && boards[n + j].current == Strokes(ps[..j]) && boards[n + j].outputs == boards[n].outputs
  {
    hide Next, Plays, Unshadowed, Inv;
    if j == 0 {
      KeysConserved(boards, bindings, inputs, n);
      IdleMatcher(boards[n], bindings);
    } else {
      PlayedSoFar(boards, bindings, inputs, n, b, ps, j - 1);
      PlayedOn(boards[n + j - 1], bindings, b, ps, j - 1);
      assert boards[n + j] == Next(boards[n + j - 1], bindings, Press(ps[j - 1])) by { assert inputs[n + (j - 1)] == Press(ps[j - 1]); }
    }
  }

  lemma IdleMatcher(k: Keyboard, bindings: seq<Binding>)
    requires Inv(k, bindings) && k.pending == []
    ensures k.current == Strokes([])
  {
    hide AllKeys, Justified, NoneComplete;
  }

  /** After `j` keys those are held back, and nothing went out. */
  predicate Waits(boards: seq<Keyboard>, n: nat, ps: seq<PendingKey>, j: nat)
    requires n + j < |boards| && j <= |ps|
  {
    boards[n + j].outputs == boards[n].outputs && boards[n + j].pending == ps[..j]
  }

  /** A binding fires: over every run, from a keyboard that holds nothing back, pressing the
      keys of a binding none of whose proper starts is a whole binding fires one chord, all
      those keys, with the binding's action among its actions, and holds nothing back. */
  lemma BindingFires(boards: seq<Keyboard>, bindings: seq<Binding>, inputs: seq<Input>, n: nat, b: Binding, ps: seq<PendingKey>)
    requires Run(boards, bindings, inputs) && Pressed(inputs, n, ps) && boards[n].pending == []
    requires b in bindings && ps != [] && Plays(b, ps) && Unshadowed(bindings, b)
    ensures boards[n + |ps|].pending == []
    ensures exists actions :: b.action in actions && boards[n + |ps|].outputs == boards[n].outputs + [Fired(ps, actions)]
    ensures forall j :: 0 <= j < |ps| ==> Waits(boards, n, ps, j)
  {
    hide Next, Plays, Unshadowed, Inv;
    forall j | 0 <= j < |ps| ensures Waits(boards, n, ps, j) {
      PlayedSoFar(boards, bindings, inputs, n, b, ps, j);
    }
    var j := |ps| - 1;
    PlayedSoFar(boards, bindings, inputs, n, b, ps, j);
    PlayedOn(boards[n + j], bindings, b, ps, j);
    RunStep(boards, bindings, inputs, n, ps, j);
  }

  lemma RunStep(boards: seq<Keyboard>, bindings: seq<Binding>, inputs: seq<Input>, n: nat, ps: seq<PendingKey>, j: nat)
    requires Run(boards, bindings, inputs) && Pressed(inputs, n, ps) && j < |ps|
    ensures boards[n + j + 1] == Next(boards[n + j], bindings, Press(ps[j]))
  {
    hide Next;
    assert inputs[n + j] == Press(ps[j]);
  }

  // ---------------------------------------------------------------- the controller

  class InputController {
    const bindings: seq<Binding>
    const sequenceMatcher: SequenceMatcher
    const sequenceTimeoutMs: int
    var pendingSequenceKeys: seq<PendingKey>
    var timerArmed: bool
    var outputs: seq<Output>
    ghost var pressed: seq<PendingKey>

    ghost function St(): Keyboard
      reads this, sequenceMatcher
    {
      Keyboard(sequenceMatcher.current, pendingSequenceKeys, pressed, outputs)
    }

    /** The timer runs exactly while keys are held back, unless timeouts are off. */
    ghost predicate Timed()
      reads this
    {
      timerArmed <==> pendingSequenceKeys != [] && sequenceTimeoutMs > 0
    }

    constructor (b: seq<Binding>, timeoutMs: int)
      ensures bindings == b && sequenceTimeoutMs == timeoutMs && St() == IDLE && Inv(St(), b) && Timed() && fresh(sequenceMatcher)
    {
      bindings, sequenceTimeoutMs := b, timeoutMs;
      sequenceMatcher := new SequenceMatcher();
      pendingSequenceKeys, timerArmed, outputs, pressed := [], false, [], [];
    }

    /** A press or repeat of a key.  A release does not come here. */
    method OnKey(p: PendingKey)
      requires Inv(St(), bindings) && Timed()
      modifies this, sequenceMatcher
      ensures St() == Next(old(St()), bindings, Press(p)) && Inv(St(), bindings) && Timed()
    {
      hide Inv, Outcome, Progress;
      StepKeepsInv(St(), bindings, Press(p));
      Resets(St(), bindings, p);
      pressed := pressed + [p];
      var result := sequenceMatcher.Advance(StrokeOf(p), bindings);
      match result {
        case Match(actions) =>
          outputs := outputs + [Fired(pendingSequenceKeys + [p], actions)];
          pendingSequenceKeys := [];
          timerArmed := false;
        case Prefix =>
          pendingSequenceKeys := pendingSequenceKeys + [p];
          timerArmed := sequenceTimeoutMs > 0;
        case NoMatch(aborted) =>
          timerArmed := false;
          if aborted != [] {
            var pending := pendingSequenceKeys;
            pendingSequenceKeys := [];
            Replay(pending);
          } else {
            assert outputs + Send([]) == outputs;
          }
          outputs := outputs + [Sent(p)];
      }
    }

    /** Send keys on to the shell, first to last. */
    method Replay(pending: seq<PendingKey>)
      modifies this`outputs
      ensures outputs == old(outputs) + Send(pending)
    {
      for i := 0 to |pending|
        invariant outputs == old(outputs) + Send(pending[..i])
      {
        outputs := outputs + [Sent(pending[i])];
        assert Send(pending[..i + 1]) == Send(pending[..i]) + [Sent(pending[i])];
      }
      assert pending[..|pending|] == pending;
    }

    method OnSequenceTimeout()
      requires Inv(St(), bindings) && Timed()
      modifies this, sequenceMatcher
      ensures St() == Next(old(St()), bindings, Timeout) && Inv(St(), bindings) && Timed()
    {
      StepKeepsInv(St(), bindings, Timeout);
      timerArmed := false;
      if pendingSequenceKeys == [] {
        assert outputs + Send([]) == outputs;
        sequenceMatcher.Reset();
        return;
      }
      var pending := pendingSequenceKeys;
      pendingSequenceKeys := [];
      sequenceMatcher.Reset();
      Replay(pending);
    }
  }

  /** The matcher starts over unless it waits for more, and gives up exactly the keys held
      back. */
  lemma Resets(k: Keyboard, bindings: seq<Binding>, p: PendingKey)
    requires Inv(k, bindings)
    ensures var o := Outcome(k.current + [StrokeOf(p)], bindings); o.NoMatch? ==> (o.aborted == [] <==> k.pending == [])
    ensures var strokes := k.current + [StrokeOf(p)];
      Progress(strokes, bindings) == if Outcome(strokes, bindings).Prefix? then strokes else []
  {
    hide AllKeys, Justified, NoneComplete, AnyCompletes, AnyExtends;
  }
}
