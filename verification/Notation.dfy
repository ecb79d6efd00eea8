/** The notation of tuples in messages and logs: `record:r1#viewer@team:t1#member`. */
module Notation {
  import opened Permissions
  import opened Std

  // ----- printing

  function FormatEntity(entity: Entity): string {
    entity.kind + ":" + entity.id
  }

  function FormatSubject(subject: Subject): string {
    match subject
    case One(entity) => FormatEntity(entity)
    case SetOf(entity, relation) => FormatEntity(entity) + "#" + relation
  }

  function FormatTuple(tuple: Tuple): string {
    FormatEntity(tuple.on) + "#" + tuple.relation + "@" + FormatSubject(tuple.subject)
  }

  // ----- reading: a pattern's groups exclude what ends them, so each is the longest run there is

  const TYPE_ENDS := {':', '@', '#', '(', ')'}
  const ID_ENDS := {'@', '#', '(', ')'}
  const LINE_ENDS := {'\n', '\r', '\U{2028}', '\U{2029}'}

  /** Not empty, and none of these characters in it. */
  predicate IsRun(s: string, ends: set<char>) {
    s != "" && forall i :: 0 <= i < |s| ==> s[i] !in ends
  }

  /** How long the run is that a text starts with. */
  function RunLength(s: string, ends: set<char>): (n: nat)
    ensures n <= |s| && forall i :: 0 <= i < n ==> s[i] !in ends
    ensures n < |s| ==> s[n] in ends
  {
    if s == "" || s[0] in ends then 0 else 1 + RunLength(s[1..], ends)
  }

  /** The run a text starts with, and what follows the character after it. */
  datatype Cut = Cut(run: string, rest: string)

  /** A run that is not empty, up to this character. */
  function CutAt(text: string, ends: set<char>, stop: char): Option<Cut> {
    var n := RunLength(text, ends);
    if n == 0 || n == |text| || text[n] != stop then None else Some(Cut(text[..n], text[n + 1..]))
  }

  function ParseSubject(text: string): Option<Subject> {
    match CutAt(text, TYPE_ENDS, ':')
    case None => None
    case Some(Cut(kind, rest)) =>
      if IsRun(rest, ID_ENDS) then Some(One(Entity(kind, rest)))
      else
        match CutAt(rest, ID_ENDS, '#')
        case None => None
        case Some(Cut(id, relation)) =>
          if IsRun(relation, TYPE_ENDS) then Some(SetOf(Entity(kind, id), relation)) else None
  }

  function ParseTuple(text: string): Option<Tuple> {
    match CutAt(text, TYPE_ENDS, ':')
    case None => None
    case Some(Cut(kind, afterType)) =>
      match CutAt(afterType, ID_ENDS, '#')
      case None => None
      case Some(Cut(id, afterId)) =>
        match CutAt(afterId, TYPE_ENDS, '@')
        case None => None
        case Some(Cut(relation, subject)) =>
          if !IsRun(subject, LINE_ENDS) then None
          else
            match ParseSubject(subject)
            case None => None
            case Some(held) => Some(Tuple(Entity(kind, id), relation, held))
  }

  // ----- what the notation can carry

  predicate WellFormedEntity(entity: Entity) {
    IsRun(entity.kind, TYPE_ENDS) && IsRun(entity.id, ID_ENDS)
  }

  predicate WellFormedSubject(subject: Subject) {
    WellFormedEntity(subject.entity) && (subject.SetOf? ==> IsRun(subject.relation, TYPE_ENDS))
  }

  /** Types and relations without `:@#()`, ids without `@#()`, none empty, and no line end in the subject. */
  predicate WellFormed(tuple: Tuple) {
    && WellFormedEntity(tuple.on) && IsRun(tuple.relation, TYPE_ENDS)
    && WellFormedSubject(tuple.subject) && IsRun(FormatSubject(tuple.subject), LINE_ENDS)
  }

  // ----- cutting and joining

  lemma {:induction false} RunOf(run: string, ends: set<char>, stop: char, rest: string)
    requires (forall i :: 0 <= i < |run| ==> run[i] !in ends) && stop in ends
    ensures RunLength(run + ([stop] + rest), ends) == |run|
  {
    if run == "" {
      assert run + ([stop] + rest) == [stop] + rest;
    } else {
      assert (run + ([stop] + rest))[1..] == run[1..] + ([stop] + rest);
      RunOf(run[1..], ends, stop, rest);
    }
  }

  lemma CutOf(run: string, ends: set<char>, stop: char, rest: string)
    requires IsRun(run, ends) && stop in ends
    ensures CutAt(run + ([stop] + rest), ends, stop) == Some(Cut(run, rest))
  {
    RunOf(run, ends, stop, rest);
    var text := run + ([stop] + rest);
    assert text[..|run|] == run && text[|run| + 1..] == rest;
  }

  lemma CutBack(text: string, ends: set<char>, stop: char)
    ensures CutAt(text, ends, stop).Some? ==>
              var cut := CutAt(text, ends, stop).value; IsRun(cut.run, ends) && text == cut.run + ([stop] + cut.rest)
  {
  }

  // ----- they undo each other

  lemma SubjectBack(subject: Subject)
    requires WellFormedSubject(subject)
    ensures ParseSubject(FormatSubject(subject)) == Some(subject)
  {
    hide RunLength, IsRun, CutAt;
    var entity := subject.entity;
    if subject.One? {
      assert FormatSubject(subject) == entity.kind + ([':'] + entity.id);
      CutOf(entity.kind, TYPE_ENDS, ':', entity.id);
    } else {
      var rest := entity.id + (['#'] + subject.relation);
      assert FormatSubject(subject) == entity.kind + ([':'] + rest);
      CutOf(entity.kind, TYPE_ENDS, ':', rest);
      CutOf(entity.id, ID_ENDS, '#', subject.relation);
      NotARun(entity.id, '#', subject.relation, ID_ENDS);
    }
  }

  lemma NotARun(a: string, stop: char, b: string, ends: set<char>)
    requires stop in ends
    ensures !IsRun(a + ([stop] + b), ends)
  {
    assert (a + ([stop] + b))[|a|] == stop;
  }

  lemma SubjectPrints(text: string, subject: Subject)
    requires ParseSubject(text) == Some(subject)
    ensures FormatSubject(subject) == text && WellFormedSubject(subject)
  {
    hide RunLength, IsRun, CutAt;
    CutBack(text, TYPE_ENDS, ':');
    var cut := CutAt(text, TYPE_ENDS, ':').value;
    CutBack(cut.rest, ID_ENDS, '#');
    if subject.SetOf? {
      assert cut.run + ([':'] + (subject.entity.id + (['#'] + subject.relation))) == FormatSubject(subject);
    }
  }

  lemma TupleBack(tuple: Tuple)
    requires WellFormed(tuple)
    ensures ParseTuple(FormatTuple(tuple)) == Some(tuple)
  {
    hide RunLength, IsRun, CutAt, ParseSubject, FormatSubject;
    var subject := FormatSubject(tuple.subject);
    var afterId := tuple.relation + (['@'] + subject);
    var afterType := tuple.on.id + (['#'] + afterId);
    assert FormatTuple(tuple) == tuple.on.kind + ([':'] + afterType);
    CutOf(tuple.on.kind, TYPE_ENDS, ':', afterType);
    CutOf(tuple.on.id, ID_ENDS, '#', afterId);
    CutOf(tuple.relation, TYPE_ENDS, '@', subject);
    SubjectBack(tuple.subject);
  }

  /** **Any text that parses prints back to itself**: the notation is unambiguous, though ids may hold `:`. */
  lemma TuplePrints(text: string, tuple: Tuple)
    requires ParseTuple(text) == Some(tuple)
    ensures FormatTuple(tuple) == text && WellFormed(tuple)
  {
    hide RunLength, IsRun, CutAt, ParseSubject, FormatSubject;
    CutBack(text, TYPE_ENDS, ':');
    var cut := CutAt(text, TYPE_ENDS, ':').value;
    CutBack(cut.rest, ID_ENDS, '#');
    var cut' := CutAt(cut.rest, ID_ENDS, '#').value;
    CutBack(cut'.rest, TYPE_ENDS, '@');
    var cut'' := CutAt(cut'.rest, TYPE_ENDS, '@').value;
    SubjectPrints(cut''.rest, tuple.subject);
    assert cut.run + ([':'] + (cut'.run + (['#'] + (cut''.run + (['@'] + cut''.rest))))) == FormatTuple(tuple);
  }

  /** **A tuple printed parses back to itself exactly when it is well formed.** */
  lemma RoundTrip(tuple: Tuple)
    ensures ParseTuple(FormatTuple(tuple)) == Some(tuple) <==> WellFormed(tuple)
  {
    if WellFormed(tuple) { TupleBack(tuple); }
    if ParseTuple(FormatTuple(tuple)) == Some(tuple) { TuplePrints(FormatTuple(tuple), tuple); }
  }

  // ----- the keys of a walk

  /** What a walk's path holds of a name of an entity. */
  function PathKey(entity: Entity, name: string): string {
    FormatEntity(entity) + "#" + name
  }

  /** **Two nodes of a walk never share a key**, whatever their ids hold. */
  lemma PathKeysTell(a: Entity, name: string, b: Entity, name': string)
    requires ':' !in a.kind && ':' !in b.kind && '#' !in name && '#' !in name'
    requires PathKey(a, name) == PathKey(b, name')
    ensures a == b && name == name'
  {
    assert PathKey(a, name) == a.kind + ":" + (a.id + "#" + name);
    assert PathKey(b, name') == b.kind + ":" + (b.id + "#" + name');
    SplitsOnce(a.kind, a.id + "#" + name, b.kind, b.id + "#" + name');
    EndsOnce(a.id, name, b.id, name');
  }

  /** What comes before the first `:` tells. */
  lemma SplitsOnce(p: string, x: string, q: string, y: string)
    requires ':' !in p && ':' !in q && p + ":" + x == q + ":" + y
    ensures p == q && x == y
  {
    var text := p + ":" + x;
    assert text[|p|] == ':' && text[|q|] == ':';
    assert forall i :: 0 <= i < |p| ==> text[i] == p[i];
    assert forall i :: 0 <= i < |q| ==> text[i] == q[i];
    assert p == text[..|p|] && q == text[..|q|];
    assert x == text[|p| + 1..] && y == text[|q| + 1..];
  }

  /** What comes after the last `#` tells. */
  lemma EndsOnce(x: string, p: string, y: string, q: string)
    requires '#' !in p && '#' !in q && x + "#" + p == y + "#" + q
    ensures x == y && p == q
  {
    var text := x + "#" + p;
    assert text[|x|] == '#' && text[|y|] == '#';
    assert forall i :: |x| < i < |text| ==> text[i] == p[i - |x| - 1];
    assert forall i :: |y| < i < |text| ==> text[i] == q[i - |y| - 1];
    assert x == text[..|x|] && y == text[..|y|];
    assert p == text[|x| + 1..] && q == text[|y| + 1..];
  }

  /** As it is written in messages. */
  lemma AsWritten()
    ensures FormatTuple(Tuple(Entity("record", "r1"), "viewer", SetOf(Entity("team", "t1"), "member"))) ==
            "record:r1#viewer@team:t1#member"
    ensures FormatTuple(Tuple(Entity("record", "r1"), "viewer", One(Entity("staff", "s1")))) ==
            "record:r1#viewer@staff:s1"
  {
  }
}
