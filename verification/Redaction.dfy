/** The log handler that hides sensitive attributes (internal/observability/redact.go). */
module Redaction {
  const REDACTED: string := "REDACTED"

  /** slog's attributes. `Leaf` stands for every value that is neither a group nor a
      LogValuer; `Valuer` holds what its LogValue method returns. */
  datatype Attr = Attr(key: string, value: Value)
  datatype Value = Leaf(text: string) | Group(attrs: seq<Attr>) | Valuer(answer: Value)

  /** Which keys and group names are sensitive. Nothing below depends on the list of words. */
  type Classifier = string -> bool

  // ---------------------------------------------------------------- slog

  function Resolve(v: Value): (r: Value)
    ensures !r.Valuer? && (r == v || r < v)
  {
    match v
    case Valuer(w) => Resolve(w)
    case _ => v
  }

  predicate IsEmptyGroup(v: Value) {
    v.Group? && |v.attrs| == 0
  }

  /** GroupValue and Record.AddAttrs drop empty groups. */
  function NonEmpty(attrs: seq<Attr>): seq<Attr> {
    if attrs == [] then []
    else (if IsEmptyGroup(attrs[0].value) then [] else [attrs[0]]) + NonEmpty(attrs[1..])
  }

  lemma {:induction false} NoneDropped(attrs: seq<Attr>)
    requires forall i :: 0 <= i < |attrs| ==> !IsEmptyGroup(attrs[i].value)
    ensures NonEmpty(attrs) == attrs
  {
    if attrs != [] { NoneDropped(attrs[1..]); }
  }

  lemma {:induction false} SomeKept(attrs: seq<Attr>, i: nat)
    requires i < |attrs| && !IsEmptyGroup(attrs[i].value)
    ensures NonEmpty(attrs) != []
  {
    if i > 0 { SomeKept(attrs[1..], i - 1); }
  }

  // ---------------------------------------------------------------- the handler

  function RedactAttr(sensitive: Classifier, a: Attr): Attr
    decreases a
  {
    if sensitive(a.key) then Attr(a.key, Leaf(REDACTED))
    else
      var v := Resolve(a.value);
      if v.Group? then Attr(a.key, Group(NonEmpty(RedactEach(sensitive, v.attrs)))) else Attr(a.key, v)
  }

  function RedactEach(sensitive: Classifier, attrs: seq<Attr>): (r: seq<Attr>)
    ensures |r| == |attrs|
    ensures forall i :: 0 <= i < |attrs| ==> r[i] == RedactAttr(sensitive, attrs[i])
    decreases attrs
  {
    if attrs == [] then [] else [RedactAttr(sensitive, attrs[0])] + RedactEach(sensitive, attrs[1..])
  }

  /** Whether redacting could change it; a LogValuer always counts. */
  predicate NeedsRedaction(sensitive: Classifier, a: Attr)
    decreases a
  {
    sensitive(a.key) ||
    match a.value
    case Valuer(_) => true
    case Group(attrs) => exists i :: 0 <= i < |attrs| && NeedsRedaction(sensitive, attrs[i])
    case Leaf(_) => false
  }

  /** The handler's redact; `all` is set below a group with a sensitive name. */
  function Redact(sensitive: Classifier, all: bool, a: Attr): Attr {
    if all then Attr(a.key, Leaf(REDACTED)) else RedactAttr(sensitive, a)
  }

  function RedactList(sensitive: Classifier, all: bool, attrs: seq<Attr>): (r: seq<Attr>)
    ensures |r| == |attrs|
    ensures forall i :: 0 <= i < |attrs| ==> r[i] == Redact(sensitive, all, attrs[i])
  {
    seq(|attrs|, i requires 0 <= i < |attrs| => Redact(sensitive, all, attrs[i]))
  }

  /** The slow path of Handle: a new record with every attribute redacted. */
  function Rebuilt(sensitive: Classifier, all: bool, attrs: seq<Attr>): seq<Attr> {
    NonEmpty(RedactList(sensitive, all, attrs))
  }

  /** Handle, with its fast path: what the next handler is given. */
  function Passed(sensitive: Classifier, all: bool, attrs: seq<Attr>): seq<Attr> {
    if !all && (forall i :: 0 <= i < |attrs| ==> !NeedsRedaction(sensitive, attrs[i])) then attrs
    else Rebuilt(sensitive, all, attrs)
  }

  // ---------------------------------------------------------------- as it runs

  method Needs(sensitive: Classifier, a: Attr) returns (needs: bool)
    ensures needs == NeedsRedaction(sensitive, a)
    decreases a
  {
    if sensitive(a.key) { return true; }
    match a.value
    case Valuer(_) => return true;
    case Leaf(_) => return false;
    case Group(attrs) =>
      for i := 0 to |attrs|
        invariant forall j :: 0 <= j < i ==> !NeedsRedaction(sensitive, attrs[j])
      {
        needs := Needs(sensitive, attrs[i]);
        if needs { return; }
      }
      return false;
  }

  method RedactOne(sensitive: Classifier, a: Attr) returns (r: Attr)
    ensures r == RedactAttr(sensitive, a)
    decreases a
  {
    if sensitive(a.key) { return Attr(a.key, Leaf(REDACTED)); }
    var v := Resolve(a.value);
    if !v.Group? { return Attr(a.key, v); }
    var out: seq<Attr> := [];
    for i := 0 to |v.attrs|
      invariant |out| == i
      invariant forall j :: 0 <= j < i ==> out[j] == RedactAttr(sensitive, v.attrs[j])
    {
      var ga := RedactOne(sensitive, v.attrs[i]);
      out := out + [ga];
    }
    assert out == RedactEach(sensitive, v.attrs);
    return Attr(a.key, Group(NonEmpty(out)));
  }

  /** What has been asked of the next handler to derive it, and the flag. */
  datatype Step = WithAttrs(attrs: seq<Attr>) | WithGroup(name: string)
  datatype Handler = Handler(next: seq<Step>, redactAll: bool)

  /** RedactingHandler.Handle: the attributes of the record that the next handler is given. */
  method Handle(sensitive: Classifier, h: Handler, attrs: seq<Attr>) returns (passed: seq<Attr>)
    ensures passed == Passed(sensitive, h.redactAll, attrs)
  {
    var clean := !h.redactAll;
    if clean {
      for i := 0 to |attrs|
        invariant clean
        invariant forall j :: 0 <= j < i ==> !NeedsRedaction(sensitive, attrs[j])
      {
        var needs := Needs(sensitive, attrs[i]);
        clean := !needs;
        if !clean { break; }
      }
    }
    if clean { return attrs; }
    passed := Rebuild(sensitive, h.redactAll, attrs);
  }

  /** The clone, filled one attribute at a time. */
  method Rebuild(sensitive: Classifier, all: bool, attrs: seq<Attr>) returns (passed: seq<Attr>)
    ensures passed == Rebuilt(sensitive, all, attrs)
  {
    passed := [];
    ghost var done: seq<Attr> := [];
    for i := 0 to |attrs|
      invariant |done| == i && passed == NonEmpty(done)
      invariant forall j :: 0 <= j < i ==> done[j] == Redact(sensitive, all, attrs[j])
    {
      var a := RedactNext(sensitive, all, attrs[i]);
      OneMore(done, a);
      done := done + [a];
      if !IsEmptyGroup(a.value) { passed := passed + [a]; }
    }
    AllRedacted(sensitive, all, attrs, done);
  }

  lemma AllRedacted(sensitive: Classifier, all: bool, attrs: seq<Attr>, done: seq<Attr>)
    requires |done| == |attrs| && forall j :: 0 <= j < |attrs| ==> done[j] == Redact(sensitive, all, attrs[j])
    ensures done == RedactList(sensitive, all, attrs)
  {
  }

  /** The handler's redact. */
  method RedactNext(sensitive: Classifier, all: bool, a: Attr) returns (r: Attr)
    ensures r == Redact(sensitive, all, a)
  {
    if all { return Attr(a.key, Leaf(REDACTED)); }
    r := RedactOne(sensitive, a);
  }

  lemma Associative(a: seq<Attr>, b: seq<Attr>, c: seq<Attr>)
    ensures a + (b + c) == (a + b) + c
  {
  }

  lemma {:induction false} OneMore(attrs: seq<Attr>, a: Attr)
    ensures NonEmpty(attrs + [a]) == NonEmpty(attrs) + (if IsEmptyGroup(a.value) then [] else [a])
  {
    if attrs == [] {
      assert [a][1..] == [];
    } else {
      assert (attrs + [a])[1..] == attrs[1..] + [a];
      OneMore(attrs[1..], a);
      Associative(if IsEmptyGroup(attrs[0].value) then [] else [attrs[0]], NonEmpty(attrs[1..]),
                  if IsEmptyGroup(a.value) then [] else [a]);
    }
  }

  method HandlerWithAttrs(sensitive: Classifier, h: Handler, attrs: seq<Attr>) returns (g: Handler)
    ensures g == Derive(sensitive, h, WithAttrs(attrs))
  {
    var out: seq<Attr> := [];
    for i := 0 to |attrs|
      invariant |out| == i
      invariant forall j :: 0 <= j < i ==> out[j] == Redact(sensitive, h.redactAll, attrs[j])
    {
      var a := RedactNext(sensitive, h.redactAll, attrs[i]);
      out := out + [a];
    }
    assert out == RedactList(sensitive, h.redactAll, attrs);
    return Handler(h.next + [WithAttrs(out)], h.redactAll);
  }

  /** A logger derived step by step. */
  method DeriveLogger(sensitive: Classifier, steps: seq<Step>) returns (h: Handler)
    ensures h == DeriveAll(sensitive, Handler([], false), steps)
  {
    h := Handler([], false);
    assert steps[0..] == steps;
    for i := 0 to |steps|
      invariant DeriveAll(sensitive, h, steps[i..]) == DeriveAll(sensitive, Handler([], false), steps)
    {
      assert steps[i..][1..] == steps[i + 1..];
      match steps[i] {
        case WithAttrs(attrs) => h := HandlerWithAttrs(sensitive, h, attrs);
        case WithGroup(name) => h := Handler(h.next + [WithGroup(name)], h.redactAll || sensitive(name));
      }
    }
  }

  // ---------------------------------------------------------------- chains of handlers

  /** WithAttrs and WithGroup. */
  function Derive(sensitive: Classifier, h: Handler, step: Step): Handler {
    match step
    case WithAttrs(attrs) => Handler(h.next + [WithAttrs(RedactList(sensitive, h.redactAll, attrs))], h.redactAll)
    case WithGroup(name) => Handler(h.next + [step], h.redactAll || sensitive(name))
  }

  function DeriveAll(sensitive: Classifier, h: Handler, steps: seq<Step>): Handler
    decreases steps
  {
    if steps == [] then h else DeriveAll(sensitive, Derive(sensitive, h, steps[0]), steps[1..])
  }

  /** Everything the next handler learns from a logger derived by `steps` and one record. */
  datatype Output = Output(steps: seq<Step>, attrs: seq<Attr>)

  function Log(sensitive: Classifier, steps: seq<Step>, attrs: seq<Attr>): Output {
    var h := DeriveAll(sensitive, Handler([], false), steps);
    Output(h.next, Passed(sensitive, h.redactAll, attrs))
  }

  // ---------------------------------------------------------------- the fast path

  /** What slog builds: no group holds an empty group. */
  predicate WellFormed(attrs: seq<Attr>)
    decreases attrs
  {
    forall i :: 0 <= i < |attrs| ==>
      attrs[i].value != Group([]) && (attrs[i].value.Group? ==> WellFormed(attrs[i].value.attrs))
  }

  lemma {:induction false} NothingToRedact(sensitive: Classifier, a: Attr)
    requires !NeedsRedaction(sensitive, a) && (a.value.Group? ==> WellFormed(a.value.attrs))
    ensures RedactAttr(sensitive, a) == a
    decreases a
  {
    if a.value.Group? {
      var attrs := a.value.attrs;
      forall i | 0 <= i < |attrs| ensures RedactAttr(sensitive, attrs[i]) == attrs[i] {
        NothingToRedact(sensitive, attrs[i]);
      }
      assert RedactEach(sensitive, attrs) == attrs;
      NoneDropped(attrs);
    }
  }

  /** Passing a record through gives what rebuilding it would have given. */
  lemma FastPathIsSlowPath(sensitive: Classifier, all: bool, attrs: seq<Attr>)
    requires WellFormed(attrs)
    ensures Passed(sensitive, all, attrs) == Rebuilt(sensitive, all, attrs)
  {
    if !all && (forall i :: 0 <= i < |attrs| ==> !NeedsRedaction(sensitive, attrs[i])) {
      forall i | 0 <= i < |attrs| ensures RedactAttr(sensitive, attrs[i]) == attrs[i] {
        NothingToRedact(sensitive, attrs[i]);
      }
      assert RedactList(sensitive, all, attrs) == attrs;
      NoneDropped(attrs);
    }
  }

  // ---------------------------------------------------------------- what leaves the handler

  /** Nothing sensitive is in it: at every depth a sensitive key has the value "REDACTED". */
  ghost predicate Clean(sensitive: Classifier, a: Attr)
    decreases a
  {
    if sensitive(a.key) then a.value == Leaf("REDACTED")
    else a.value.Group? ==> forall i :: 0 <= i < |a.value.attrs| ==> Clean(sensitive, a.value.attrs[i])
  }

  /** The same below a group with a sensitive name: every value is "REDACTED". */
  ghost predicate CleanList(sensitive: Classifier, all: bool, attrs: seq<Attr>) {
    forall i :: 0 <= i < |attrs| ==> if all then attrs[i].value == Leaf("REDACTED") else Clean(sensitive, attrs[i])
  }

  lemma {:induction false} CleanStays(sensitive: Classifier, all: bool, attrs: seq<Attr>)
    requires CleanList(sensitive, all, attrs)
    ensures CleanList(sensitive, all, NonEmpty(attrs))
  {
    if attrs != [] {
      var rest, kept := attrs[1..], NonEmpty(attrs);
      forall i | 0 <= i < |rest| ensures if all then rest[i].value == Leaf("REDACTED") else Clean(sensitive, rest[i]) {
        assert rest[i] == attrs[i + 1];
      }
      CleanStays(sensitive, all, rest);
      forall i | 0 <= i < |kept| ensures if all then kept[i].value == Leaf("REDACTED") else Clean(sensitive, kept[i]) {
        if IsEmptyGroup(attrs[0].value) {
          assert kept[i] == NonEmpty(rest)[i];
        } else if i > 0 {
          assert kept[i] == NonEmpty(rest)[i - 1];
        }
      }
    }
  }

  lemma {:induction false} RedactedIsClean(sensitive: Classifier, a: Attr)
    ensures RedactAttr(sensitive, a).key == a.key && Clean(sensitive, RedactAttr(sensitive, a))
    decreases a
  {
    var v := Resolve(a.value);
    if !sensitive(a.key) && v.Group? {
      var r := RedactEach(sensitive, v.attrs);
      forall i | 0 <= i < |r| ensures Clean(sensitive, r[i]) {
        RedactedIsClean(sensitive, v.attrs[i]);
      }
      CleanStays(sensitive, false, r);
    }
  }

  lemma {:induction false} UntouchedIsClean(sensitive: Classifier, a: Attr)
    requires !NeedsRedaction(sensitive, a)
    ensures Clean(sensitive, a)
    decreases a
  {
    if a.value.Group? {
      forall i | 0 <= i < |a.value.attrs| ensures Clean(sensitive, a.value.attrs[i]) {
        UntouchedIsClean(sensitive, a.value.attrs[i]);
      }
    }
  }

  lemma RedactedListIsClean(sensitive: Classifier, all: bool, attrs: seq<Attr>)
    ensures CleanList(sensitive, all, RedactList(sensitive, all, attrs))
  {
    forall i | 0 <= i < |attrs| && !all ensures Clean(sensitive, Redact(sensitive, all, attrs[i])) {
      RedactedIsClean(sensitive, attrs[i]);
    }
  }

  /** Whether the first steps of a chain name a sensitive group. */
  predicate NamesSensitive(sensitive: Classifier, steps: seq<Step>) {
    exists i :: 0 <= i < |steps| && steps[i].WithGroup? && sensitive(steps[i].name)
  }

  /** Each WithAttrs that the next handler sees is clean, as the groups before it demand. */
  ghost predicate CleanSteps(sensitive: Classifier, all: bool, steps: seq<Step>) {
    forall i :: 0 <= i < |steps| && steps[i].WithAttrs? ==>
      CleanList(sensitive, all || NamesSensitive(sensitive, steps[..i]), steps[i].attrs)
  }

  lemma {:induction false} ChainIsClean(sensitive: Classifier, h: Handler, steps: seq<Step>)
    requires CleanSteps(sensitive, false, h.next) && h.redactAll == NamesSensitive(sensitive, h.next)
    ensures
      var g := DeriveAll(sensitive, h, steps);
      CleanSteps(sensitive, false, g.next) && g.redactAll == NamesSensitive(sensitive, g.next)
    decreases |steps|
  {
    if steps != [] {
      StepIsClean(sensitive, h, steps[0]);
      ChainIsClean(sensitive, Derive(sensitive, h, steps[0]), steps[1..]);
    }
  }

  lemma StepIsClean(sensitive: Classifier, h: Handler, step: Step)
    requires CleanSteps(sensitive, false, h.next) && h.redactAll == NamesSensitive(sensitive, h.next)
    ensures
      var g := Derive(sensitive, h, step);
      CleanSteps(sensitive, false, g.next) && g.redactAll == NamesSensitive(sensitive, g.next)
  {
    var g := Derive(sensitive, h, step);
    var n := |h.next|;
    assert g.next[..n] == h.next;
    if step.WithAttrs? { RedactedListIsClean(sensitive, h.redactAll, step.attrs); }
    forall i | 0 <= i < |g.next| && g.next[i].WithAttrs?
      ensures CleanList(sensitive, NamesSensitive(sensitive, g.next[..i]), g.next[i].attrs)
    {
      if i < n { assert g.next[..i] == h.next[..i] && g.next[i] == h.next[i]; }
    }
    if NamesSensitive(sensitive, h.next) {
      var i :| 0 <= i < n && h.next[i].WithGroup? && sensitive(h.next[i].name);
      assert g.next[i] == h.next[i];
    }
    if g.redactAll && !h.redactAll { assert g.next[n] == step; }
    if NamesSensitive(sensitive, g.next) {
      var i :| 0 <= i < |g.next| && g.next[i].WithGroup? && sensitive(g.next[i].name);
      assert i < n ==> g.next[i] == h.next[i];
    }
  }

  /** Whatever the chain and the record, nothing that the next handler is given holds a value
      under a sensitive key or below a sensitive group name. */
  lemma NothingSensitiveLeaves(sensitive: Classifier, steps: seq<Step>, attrs: seq<Attr>)
    ensures
      var out := Log(sensitive, steps, attrs);
      && CleanSteps(sensitive, false, out.steps)
      && CleanList(sensitive, NamesSensitive(sensitive, out.steps), out.attrs)
  {
    var h := DeriveAll(sensitive, Handler([], false), steps);
    ChainIsClean(sensitive, Handler([], false), steps);
    if !h.redactAll && (forall i :: 0 <= i < |attrs| ==> !NeedsRedaction(sensitive, attrs[i])) {
      forall i | 0 <= i < |attrs| ensures Clean(sensitive, attrs[i]) {
        UntouchedIsClean(sensitive, attrs[i]);
      }
    } else {
      RedactedListIsClean(sensitive, h.redactAll, attrs);
      CleanStays(sensitive, h.redactAll, RedactList(sensitive, h.redactAll, attrs));
    }
  }

  // ---------------------------------------------------------------- what an output tells

  /** `a` and `b` differ at most in values under sensitive keys. */
  ghost predicate Alike(sensitive: Classifier, a: Attr, b: Attr)
    decreases a
  {
    a.key == b.key
    && (sensitive(a.key) ||
        var v, w := Resolve(a.value), Resolve(b.value);
        if v.Group? && w.Group? then AlikeEach(sensitive, v.attrs, w.attrs) else v == w)
  }

  ghost predicate AlikeEach(sensitive: Classifier, s: seq<Attr>, t: seq<Attr>)
    decreases s
  {
    |s| == |t| && forall i :: 0 <= i < |s| ==> Alike(sensitive, s[i], t[i])
  }

  /** No group, also behind a LogValuer, holds an attribute that resolves to an empty group. */
  ghost predicate Solid(v: Value)
    decreases v
  {
    match v
    case Leaf(_) => true
    case Valuer(w) => Solid(w)
    case Group(attrs) => forall i :: 0 <= i < |attrs| ==> Solid(attrs[i].value) && Resolve(attrs[i].value) != Group([])
  }

  lemma {:induction false} SolidResolves(v: Value)
    requires Solid(v)
    ensures Solid(Resolve(v))
    decreases v
  {
    if v.Valuer? { SolidResolves(v.answer); }
  }

  /** Redacting a solid attribute never empties a group. */
  lemma {:induction false} SolidStays(sensitive: Classifier, a: Attr)
    requires Solid(a.value)
    ensures IsEmptyGroup(RedactAttr(sensitive, a).value) ==> IsEmptyGroup(Resolve(a.value))
    decreases a
  {
    var v := Resolve(a.value);
    SolidResolves(a.value);
    if !sensitive(a.key) && v.Group? && v.attrs != [] {
      SolidStays(sensitive, v.attrs[0]);
      SomeKept(RedactEach(sensitive, v.attrs), 0);
    }
  }

  lemma {:induction false} SolidGroup(sensitive: Classifier, attrs: seq<Attr>)
    requires Solid(Group(attrs))
    ensures NonEmpty(RedactEach(sensitive, attrs)) == RedactEach(sensitive, attrs)
  {
    var r := RedactEach(sensitive, attrs);
    forall i | 0 <= i < |attrs| ensures !IsEmptyGroup(r[i].value) {
      SolidStays(sensitive, attrs[i]);
    }
    NoneDropped(r);
  }

  lemma {:induction false} AlikeIsHidden(sensitive: Classifier, a: Attr, b: Attr)
    requires Alike(sensitive, a, b)
    ensures RedactAttr(sensitive, a) == RedactAttr(sensitive, b)
    decreases a
  {
    var v, w := Resolve(a.value), Resolve(b.value);
    if !sensitive(a.key) && v.Group? && w.Group? {
      forall i | 0 <= i < |v.attrs| ensures RedactAttr(sensitive, v.attrs[i]) == RedactAttr(sensitive, w.attrs[i]) {
        AlikeIsHidden(sensitive, v.attrs[i], w.attrs[i]);
      }
      assert RedactEach(sensitive, v.attrs) == RedactEach(sensitive, w.attrs);
    }
  }

  lemma {:induction false} HiddenIsAlike(sensitive: Classifier, a: Attr, b: Attr)
    requires Solid(a.value) && Solid(b.value)
    requires RedactAttr(sensitive, a) == RedactAttr(sensitive, b)
    ensures Alike(sensitive, a, b)
    decreases a
  {
    var v, w := Resolve(a.value), Resolve(b.value);
    if !sensitive(a.key) && v.Group? && w.Group? {
      SolidResolves(a.value);
      SolidResolves(b.value);
      SolidGroup(sensitive, v.attrs);
      SolidGroup(sensitive, w.attrs);
      assert RedactEach(sensitive, v.attrs) == RedactEach(sensitive, w.attrs);
      forall i | 0 <= i < |v.attrs| ensures Alike(sensitive, v.attrs[i], w.attrs[i]) {
        HiddenIsAlike(sensitive, v.attrs[i], w.attrs[i]);
      }
    }
  }

  /** Lists that differ only in values that are sensitive under the flag `all`. */
  ghost predicate AlikeList(sensitive: Classifier, all: bool, s: seq<Attr>, t: seq<Attr>) {
    |s| == |t| && forall i :: 0 <= i < |s| ==> if all then s[i].key == t[i].key else Alike(sensitive, s[i], t[i])
  }

  lemma AlikeListsAreHidden(sensitive: Classifier, all: bool, s: seq<Attr>, t: seq<Attr>)
    requires AlikeList(sensitive, all, s, t)
    ensures RedactList(sensitive, all, s) == RedactList(sensitive, all, t)
  {
    forall i | 0 <= i < |s| ensures Redact(sensitive, all, s[i]) == Redact(sensitive, all, t[i]) {
      if !all { AlikeIsHidden(sensitive, s[i], t[i]); }
    }
  }

  ghost predicate AlikeSteps(sensitive: Classifier, all: bool, s: seq<Step>, t: seq<Step>)
    decreases s
  {
    |s| == |t| &&
    (s == [] ||
     match (s[0], t[0])
     case (WithAttrs(x), WithAttrs(y)) => AlikeList(sensitive, all, x, y) && AlikeSteps(sensitive, all, s[1..], t[1..])
     case (WithGroup(x), WithGroup(y)) => x == y && AlikeSteps(sensitive, all || sensitive(x), s[1..], t[1..])
     case _ => false)
  }

  /** Whether a step of the chain has a sensitive group name. */
  function AllAfter(sensitive: Classifier, all: bool, steps: seq<Step>): bool
    decreases steps
  {
    if steps == [] then all
    else AllAfter(sensitive, all || (steps[0].WithGroup? && sensitive(steps[0].name)), steps[1..])
  }

  lemma {:induction false} AlikeChains(sensitive: Classifier, h: Handler, s: seq<Step>, t: seq<Step>)
    requires AlikeSteps(sensitive, h.redactAll, s, t)
    ensures DeriveAll(sensitive, h, s) == DeriveAll(sensitive, h, t)
    ensures DeriveAll(sensitive, h, s).redactAll == AllAfter(sensitive, h.redactAll, s)
    decreases s
  {
    if s != [] {
      if s[0].WithAttrs? { AlikeListsAreHidden(sensitive, h.redactAll, s[0].attrs, t[0].attrs); }
      AlikeChains(sensitive, Derive(sensitive, h, s[0]), s[1..], t[1..]);
    }
  }

  /** Loggers and records that differ only in values under sensitive keys or below sensitive
      group names give the next handler the same. */
  lemma {:induction false} NonInterference(sensitive: Classifier, s: seq<Step>, t: seq<Step>, a: seq<Attr>, b: seq<Attr>)
    requires WellFormed(a) && WellFormed(b)
    requires AlikeSteps(sensitive, false, s, t) && AlikeList(sensitive, AllAfter(sensitive, false, s), a, b)
    ensures Log(sensitive, s, a) == Log(sensitive, t, b)
  {
    AlikeChains(sensitive, Handler([], false), s, t);
    var all := AllAfter(sensitive, false, s);
    FastPathIsSlowPath(sensitive, all, a);
    FastPathIsSlowPath(sensitive, all, b);
    AlikeListsAreHidden(sensitive, all, a, b);
  }

  // ---------------------------------------------------------------- and nothing else is hidden

  ghost predicate SolidList(attrs: seq<Attr>) {
    forall i :: 0 <= i < |attrs| ==> Solid(attrs[i].value)
  }

  ghost predicate SolidSteps(steps: seq<Step>) {
    forall i :: 0 <= i < |steps| && steps[i].WithAttrs? ==> SolidList(steps[i].attrs)
  }

  lemma {:induction false} SolidIsWellFormed(attrs: seq<Attr>)
    requires Solid(Group(attrs))
    ensures WellFormed(attrs)
    decreases attrs
  {
    forall i | 0 <= i < |attrs| && attrs[i].value.Group? ensures WellFormed(attrs[i].value.attrs) {
      SolidIsWellFormed(attrs[i].value.attrs);
    }
  }

  lemma HiddenListsAreAlike(sensitive: Classifier, all: bool, s: seq<Attr>, t: seq<Attr>)
    requires SolidList(s) && SolidList(t)
    requires RedactList(sensitive, all, s) == RedactList(sensitive, all, t)
    ensures AlikeList(sensitive, all, s, t)
  {
    var r, q := RedactList(sensitive, all, s), RedactList(sensitive, all, t);
    assert |s| == |r| == |q| == |t|;
    forall i | 0 <= i < |s| ensures if all then s[i].key == t[i].key else Alike(sensitive, s[i], t[i]) {
      assert r[i] == q[i];
      if !all { HiddenIsAlike(sensitive, s[i], t[i]); }
    }
  }

  lemma {:induction false} DerivedKeeps(sensitive: Classifier, h: Handler, s: seq<Step>)
    ensures h.next <= DeriveAll(sensitive, h, s).next
    ensures |DeriveAll(sensitive, h, s).next| == |h.next| + |s|
    decreases s
  {
    if s != [] { DerivedKeeps(sensitive, Derive(sensitive, h, s[0]), s[1..]); }
  }

  lemma {:induction false} HiddenChainsAreAlike(sensitive: Classifier, h: Handler, s: seq<Step>, t: seq<Step>)
    requires SolidSteps(s) && SolidSteps(t)
    requires DeriveAll(sensitive, h, s).next == DeriveAll(sensitive, h, t).next
    ensures AlikeSteps(sensitive, h.redactAll, s, t)
    decreases s
  {
    DerivedKeeps(sensitive, h, s);
    DerivedKeeps(sensitive, h, t);
    if s != [] {
      var g, k := Derive(sensitive, h, s[0]), Derive(sensitive, h, t[0]);
      DerivedKeeps(sensitive, g, s[1..]);
      DerivedKeeps(sensitive, k, t[1..]);
      SameFirst(sensitive, h, s[0], t[0], DeriveAll(sensitive, h, s).next);
      HiddenChainsAreAlike(sensitive, g, s[1..], t[1..]);
    }
  }

  lemma SameFirst(sensitive: Classifier, h: Handler, s: Step, t: Step, next: seq<Step>)
    requires Derive(sensitive, h, s).next <= next && Derive(sensitive, h, t).next <= next
    requires s.WithAttrs? ==> SolidList(s.attrs)
    requires t.WithAttrs? ==> SolidList(t.attrs)
    ensures Derive(sensitive, h, s) == Derive(sensitive, h, t)
    ensures s.WithAttrs? <==> t.WithAttrs?
    ensures s.WithAttrs? ==> AlikeList(sensitive, h.redactAll, s.attrs, t.attrs)
    ensures s.WithGroup? ==> s == t
  {
    var n := |h.next|;
    assert Derive(sensitive, h, s).next[n] == next[n] == Derive(sensitive, h, t).next[n];
    if s.WithAttrs? && t.WithAttrs? {
      HiddenListsAreAlike(sensitive, h.redactAll, s.attrs, t.attrs);
    }
  }

  lemma RebuiltKeepsAll(sensitive: Classifier, all: bool, attrs: seq<Attr>)
    requires Solid(Group(attrs))
    ensures Rebuilt(sensitive, all, attrs) == RedactList(sensitive, all, attrs)
  {
    var r := RedactList(sensitive, all, attrs);
    forall i | 0 <= i < |attrs| ensures !IsEmptyGroup(r[i].value) {
      if !all { SolidStays(sensitive, attrs[i]); }
    }
    NoneDropped(r);
  }

  /** For records without hidden empty groups: two logs are the same exactly when they differ
      only where they may. The handler hides every sensitive value and no other. */
  lemma HidesExactlyTheSensitive(sensitive: Classifier, s: seq<Step>, t: seq<Step>, a: seq<Attr>, b: seq<Attr>)
    requires Solid(Group(a)) && Solid(Group(b)) && SolidSteps(s) && SolidSteps(t)
    ensures Log(sensitive, s, a) == Log(sensitive, t, b)
       <==> AlikeSteps(sensitive, false, s, t) && AlikeList(sensitive, AllAfter(sensitive, false, s), a, b)
  {
    SolidIsWellFormed(a);
    SolidIsWellFormed(b);
    if Log(sensitive, s, a) == Log(sensitive, t, b) {
      var h := Handler([], false);
      HiddenChainsAreAlike(sensitive, h, s, t);
      AlikeChains(sensitive, h, s, t);
      var all := AllAfter(sensitive, false, s);
      FastPathIsSlowPath(sensitive, all, a);
      FastPathIsSlowPath(sensitive, all, b);
      RebuiltKeepsAll(sensitive, all, a);
      RebuiltKeepsAll(sensitive, all, b);
      HiddenListsAreAlike(sensitive, all, a, b);
    } else if AlikeSteps(sensitive, false, s, t) && AlikeList(sensitive, AllAfter(sensitive, false, s), a, b) {
      NonInterference(sensitive, s, t, a, b);
    }
  }
}
