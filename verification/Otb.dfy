/**
 The OTB file format (server/src/fileloader.cpp): a tree of nodes written with start and end
 marks, where an escape byte protects the byte after it. The grammar is `Doc`; the parser is a
 loop over the bytes with a stack of pointers to the nodes still open.
 */
module Otb {
  import opened Basics

  const ESCAPE: Byte := 0xFD
  const START: Byte := 0xFE
  const END: Byte := 0xFF

  type PlainByte = b: int | 0 <= b < 0xFD

  /** One byte of a property: written as it is, or after an escape. */
  datatype Tok = Plain(b: PlainByte) | Escaped(e: Byte)

  /** A node as written. What follows a child, up to the next mark, belongs to no property. */
  datatype Doc = Doc(typ: Byte, props: seq<Tok>, kids: seq<Kid>)
  datatype Kid = Kid(doc: Doc, junk: seq<Tok>)

  function TokText(t: Tok): seq<Byte>
  {
    match t
    case Plain(b) => [b]
    case Escaped(b) => [ESCAPE, b]
  }

  function Text(toks: seq<Tok>): seq<Byte>
  {
    if toks == [] then [] else Text(toks[..|toks| - 1]) + TokText(toks[|toks| - 1])
  }

  function Opening(d: Doc): (r: seq<Byte>)
    ensures |r| >= 2 && r[0] == START && r[1] == d.typ
    decreases d, 0
  {
    [START, d.typ] + Text(d.props) + KidsText(d.kids)
  }

  function Render(d: Doc): (r: seq<Byte>)
    ensures |r| >= 3 && r[0] == START && r[1] == d.typ
    decreases d, 1
  {
    Opening(d) + [END]
  }

  function KidsText(kids: seq<Kid>): seq<Byte>
  {
    if kids == [] then []
    else
      var last := kids[|kids| - 1];
      KidsText(kids[..|kids| - 1]) + Render(last.doc) + Text(last.junk)
  }

  lemma TextAppend(toks: seq<Tok>, t: Tok)
    ensures Text(toks + [t]) == Text(toks) + TokText(t)
  {
    assert (toks + [t])[..|toks|] == toks;
  }

  lemma KidsAppend(kids: seq<Kid>, kid: Kid)
    ensures KidsText(kids + [kid]) == KidsText(kids) + Render(kid.doc) + Text(kid.junk)
  {
    assert (kids + [kid])[..|kids|] == kids;
  }

  // ----- The parser as a machine over documents -----

  /** The nodes still open, outermost first; or the finished root and what came after it. */
  datatype Machine = Open(open: seq<Doc>) | Closed(root: Doc, trailer: seq<Tok>)

  ghost predicate Running(m: Machine)
  {
    m.Open? ==> m.open != []
  }

  function WithTok(d: Doc, t: Tok): Doc
  {
    if d.kids == [] then d.(props := d.props + [t])
    else
      var last := d.kids[|d.kids| - 1];
      d.(kids := d.kids[..|d.kids| - 1] + [last.(junk := last.junk + [t])])
  }

  function AddTok(m: Machine, t: Tok): (r: Machine)
    requires Running(m)
    ensures Running(r)
  {
    match m
    case Open(open) => Open(open[..|open| - 1] + [WithTok(open[|open| - 1], t)])
    case Closed(root, trailer) => Closed(root, trailer + [t])
  }

  function Begin(open: seq<Doc>, typ: Byte): (r: Machine)
    ensures r.Open? && Running(r)
  {
    Open(open + [Doc(typ, [], [])])
  }

  /** The innermost node ends and becomes the last child of the one around it. */
  function Finish(open: seq<Doc>): (r: Machine)
    requires open != []
    ensures Running(r) && (r.Open? <==> |open| > 1) && (|open| == 1 ==> r == Closed(open[0], []))
  {
    var n := |open|;
    if n == 1 then Closed(open[0], [])
    else
      var up := open[n - 2];
      Open(open[..n - 2] + [up.(kids := up.kids + [Kid(open[n - 1], [])])])
  }

  ghost function Run(rest: seq<Byte>, m: Machine): Option<Machine>
    requires Running(m)
    decreases |rest|
  {
    if rest == [] then
      if m.Closed? then Some(m) else None
    else if rest[0] == START then
      if m.Closed? || |rest| == 1 then None else Run(rest[2..], Begin(m.open, rest[1]))
    else if rest[0] == END then
      if m.Closed? then None else Run(rest[1..], Finish(m.open))
    else if rest[0] == ESCAPE then
      if |rest| == 1 then None else Run(rest[2..], AddTok(m, Escaped(rest[1])))
    else
      Run(rest[1..], AddTok(m, Plain(rest[0])))
  }

  lemma RunEnds(m: Machine)
    requires Running(m)
    ensures Run([], m) == if m.Closed? then Some(m) else None
  {
  }

  lemma RunStep(rest: seq<Byte>, m: Machine)
    requires Running(m) && rest != []
    ensures rest[0] == START && (m.Closed? || |rest| == 1) ==> Run(rest, m) == None
    ensures rest[0] == START && m.Open? && |rest| > 1 ==> Run(rest, m) == Run(rest[2..], Begin(m.open, rest[1]))
    ensures rest[0] == END && m.Closed? ==> Run(rest, m) == None
    ensures rest[0] == END && m.Open? ==> Run(rest, m) == Run(rest[1..], Finish(m.open))
    ensures rest[0] == ESCAPE && |rest| == 1 ==> Run(rest, m) == None
    ensures rest[0] == ESCAPE && |rest| > 1 ==> Run(rest, m) == Run(rest[2..], AddTok(m, Escaped(rest[1])))
    ensures rest[0] < ESCAPE ==> Run(rest, m) == Run(rest[1..], AddTok(m, Plain(rest[0])))
  {
  }

  function OpenText(open: seq<Doc>): seq<Byte>
  {
    if open == [] then [] else OpenText(open[..|open| - 1]) + Opening(open[|open| - 1])
  }

  /** What the machine has read. */
  function Read(m: Machine): seq<Byte>
  {
    match m
    case Open(open) => OpenText(open)
    case Closed(root, trailer) => Render(root) + Text(trailer)
  }

  lemma OpenTextAppend(open: seq<Doc>, d: Doc)
    ensures OpenText(open + [d]) == OpenText(open) + Opening(d)
  {
    assert (open + [d])[..|open|] == open;
  }

  lemma OpeningTok(d: Doc, t: Tok)
    ensures Opening(WithTok(d, t)) == Opening(d) + TokText(t)
  {
    hide TokText, KidsText, Text;
    if d.kids == [] {
      TextAppend(d.props, t);
      NoKids();
      Assoc([START, d.typ], Text(d.props), TokText(t));
    } else {
      var kids, last := d.kids[..|d.kids| - 1], d.kids[|d.kids| - 1];
      assert kids + [last] == d.kids;
      KidsAppend(kids, last);
      KidsAppend(kids, last.(junk := last.junk + [t]));
      TextAppend(last.junk, t);
      Assoc(KidsText(kids) + Render(last.doc), Text(last.junk), TokText(t));
      Assoc([START, d.typ] + Text(d.props), KidsText(d.kids), TokText(t));
    }
  }

  lemma NoKids()
    ensures KidsText([]) == [] && Text([]) == []
  {
  }

  lemma ReadTok(m: Machine, t: Tok)
    requires Running(m)
    ensures Read(AddTok(m, t)) == Read(m) + TokText(t)
  {
    hide TokText, Text, Opening, WithTok;
    match m
    case Closed(root, trailer) =>
      TextAppend(trailer, t);
      Assoc(Render(root), Text(trailer), TokText(t));
    case Open(open) =>
      var d, below := open[|open| - 1], open[..|open| - 1];
      assert below + [d] == open;
      OpenTextAppend(below, WithTok(d, t));
      OpeningTok(d, t);
      Assoc(OpenText(below), Opening(d), TokText(t));
  }

  lemma OpeningKid(up: Doc, d: Doc)
    ensures Opening(up.(kids := up.kids + [Kid(d, [])])) == Opening(up) + (Opening(d) + [END])
  {
    hide Text, KidsText, Opening;
    KidsAppend(up.kids, Kid(d, []));
    NoKids();
    assert KidsText(up.kids) + Render(d) + [] == KidsText(up.kids) + Render(d);
    OpeningIs(up);
    OpeningIs(up.(kids := up.kids + [Kid(d, [])]));
    Assoc([START, up.typ] + Text(up.props), KidsText(up.kids), Render(d));
  }

  lemma OpeningIs(d: Doc)
    ensures Opening(d) == [START, d.typ] + Text(d.props) + KidsText(d.kids)
  {
  }

  lemma ReadFinish(open: seq<Doc>)
    requires open != []
    ensures Read(Finish(open)) == OpenText(open) + [END]
  {
    hide Text, KidsText, Opening;
    var n := |open|;
    var d := open[n - 1];
    if n == 1 {
      assert open[..0] == [];
      NoKids();
      assert Render(d) + [] == Render(d) && [] + Opening(d) == Opening(d);
    } else {
      var below, up := open[..n - 2], open[n - 2];
      assert open[..n - 1] == below + [up];
      OpenTextAppend(below, up);
      OpenTextAppend(below, up.(kids := up.kids + [Kid(d, [])]));
      OpeningKid(up, d);
      Assoc(OpenText(below), Opening(up), Opening(d) + [END]);
      Assoc(OpenText(below) + Opening(up), Opening(d), [END]);
    }
  }

  lemma ReadBegin(open: seq<Doc>, typ: Byte)
    ensures Read(Begin(open, typ)) == OpenText(open) + [START, typ]
  {
    OpenTextAppend(open, Doc(typ, [], []));
    assert Opening(Doc(typ, [], [])) == [START, typ];
  }

  /** Everything accepted is a well-nested document and escape-closed bytes after it. */
  lemma {:induction false} RunIsSound(rest: seq<Byte>, m: Machine)
    requires Running(m) && Run(rest, m).Some?
    ensures Run(rest, m).value.Closed? && Read(m) + rest == Read(Run(rest, m).value)
    decreases |rest|
  {
    hide Read, AddTok, Begin, Finish;
    if rest == [] {
      assert Read(m) + rest == Read(m);
    } else if rest[0] == START {
      ReadBegin(m.open, rest[1]);
      ReadOpen(m.open);
      RunIsSound(rest[2..], Begin(m.open, rest[1]));
      Assoc(Read(m), [START, rest[1]], rest[2..]);
      assert rest == [START, rest[1]] + rest[2..];
    } else if rest[0] == END {
      ReadFinish(m.open);
      ReadOpen(m.open);
      RunIsSound(rest[1..], Finish(m.open));
      Assoc(Read(m), [END], rest[1..]);
      assert rest == [END] + rest[1..];
    } else {
      var t := if rest[0] == ESCAPE then Escaped(rest[1]) else Plain(rest[0]);
      ReadTok(m, t);
      SplitTok(rest, t);
      Assoc(Read(m), TokText(t), rest[|TokText(t)|..]);
      RunIsSound(rest[|TokText(t)|..], AddTok(m, t));
    }
  }

  lemma SplitTok(rest: seq<Byte>, t: Tok)
    requires TokText(t) <= rest
    ensures rest == TokText(t) + rest[|TokText(t)|..]
    ensures |TokText(t)| == if t.Plain? then 1 else 2
  {
  }

  lemma ReadOpen(open: seq<Doc>)
    ensures Read(Open(open)) == OpenText(open)
  {
  }

  ghost function AddToks(m: Machine, toks: seq<Tok>): (r: Machine)
    requires Running(m)
    ensures Running(r)
  {
    if toks == [] then m else AddTok(AddToks(m, toks[..|toks| - 1]), toks[|toks| - 1])
  }

  lemma {:induction false} RunText(toks: seq<Tok>, rest: seq<Byte>, m: Machine)
    requires Running(m)
    ensures Run(Text(toks) + rest, m) == Run(rest, AddToks(m, toks))
    decreases |toks|
  {
    hide Run, AddTok;
    if toks == [] {
      assert Text(toks) + rest == rest;
    } else {
      var front, t := toks[..|toks| - 1], toks[|toks| - 1];
      RunText(front, TokText(t) + rest, m);
      Assoc(Text(front), TokText(t), rest);
      RunStep(TokText(t) + rest, AddToks(m, front));
      assert (TokText(t) + rest)[|TokText(t)|..] == rest;
    }
  }

  lemma {:induction false} PropsRead(open: seq<Doc>, typ: Byte, toks: seq<Tok>)
    ensures AddToks(Begin(open, typ), toks) == Open(open + [Doc(typ, toks, [])])
    decreases |toks|
  {
    if toks != [] {
      PropsRead(open, typ, toks[..|toks| - 1]);
      assert toks[..|toks| - 1] + [toks[|toks| - 1]] == toks;
    }
  }

  lemma {:induction false} JunkRead(open: seq<Doc>, d: Doc, kid: Doc, toks: seq<Tok>)
    ensures AddToks(Open(open + [d.(kids := d.kids + [Kid(kid, [])])]), toks)
         == Open(open + [d.(kids := d.kids + [Kid(kid, toks)])])
    decreases |toks|
  {
    if toks != [] {
      var front := toks[..|toks| - 1];
      JunkRead(open, d, kid, front);
      assert front + [toks[|toks| - 1]] == toks;
      var was := d.(kids := d.kids + [Kid(kid, front)]);
      assert was.kids[..|d.kids|] == d.kids;
    }
  }

  lemma FinishKid(open: seq<Doc>, up: Doc, d: Doc)
    ensures Finish(open + [up] + [d]) == Open(open + [up.(kids := up.kids + [Kid(d, [])])])
  {
    assert (open + [up] + [d])[..|open|] == open;
  }

  lemma KidSplit(front: seq<Kid>, last: Kid, rest: seq<Byte>)
    ensures KidsText(front + [last]) + rest
         == KidsText(front) + ([START, last.doc.typ]
            + (Text(last.doc.props) + KidsText(last.doc.kids) + [END] + (Text(last.junk) + rest)))
  {
    hide Text, KidsText;
    KidsAppend(front, last);
    Assoc([START, last.doc.typ] + Text(last.doc.props), KidsText(last.doc.kids), [END]);
    Assoc([START, last.doc.typ], Text(last.doc.props), KidsText(last.doc.kids) + [END]);
    Assoc(Text(last.doc.props), KidsText(last.doc.kids), [END]);
    var body := Text(last.doc.props) + KidsText(last.doc.kids) + [END];
    assert Render(last.doc) == [START, last.doc.typ] + body;
    Assoc(KidsText(front) + Render(last.doc), Text(last.junk), rest);
    Assoc(KidsText(front), Render(last.doc), Text(last.junk) + rest);
    Assoc([START, last.doc.typ], body, Text(last.junk) + rest);
  }

  /** From the opening of a node, its text brings the machine to its end. */
  lemma {:induction false} RunDoc(open: seq<Doc>, d: Doc, rest: seq<Byte>)
    ensures Run(Text(d.props) + KidsText(d.kids) + [END] + rest, Begin(open, d.typ)) == Run(rest, Finish(open + [d]))
    decreases d, 1
  {
    var tail := KidsText(d.kids) + ([END] + rest);
    RunText(d.props, tail, Begin(open, d.typ));
    assert Text(d.props) + KidsText(d.kids) + [END] + rest == Text(d.props) + tail;
    PropsRead(open, d.typ, d.props);
    RunKids(open, d, d.kids, [END] + rest);
    assert ([END] + rest)[1..] == rest;
  }

  lemma RunBegin(open: seq<Doc>, typ: Byte, body: seq<Byte>)
    requires open != []
    ensures Run([START, typ] + body, Open(open)) == Run(body, Begin(open, typ))
  {
    assert ([START, typ] + body)[2..] == body;
  }

  lemma {:induction false} RunKids(open: seq<Doc>, d: Doc, kids: seq<Kid>, rest: seq<Byte>)
    requires kids <= d.kids
    ensures Run(KidsText(kids) + rest, Open(open + [d.(kids := [])])) == Run(rest, Open(open + [d.(kids := kids)]))
    decreases d, 0, |kids|
  {
    if kids == [] {
      assert KidsText(kids) + rest == rest;
    } else {
      hide Text, KidsText, Finish, Begin, AddToks, Run, AddTok;
      var front, last := kids[..|kids| - 1], kids[|kids| - 1];
      assert last in d.kids;
      var body := Text(last.doc.props) + KidsText(last.doc.kids) + [END] + (Text(last.junk) + rest);
      KidSplit(front, last, rest);
      assert front + [last] == kids;
      RunKids(open, d, front, [START, last.doc.typ] + body);
      RunKid(open, d.(kids := front), last, rest);
    }
  }

  lemma {:induction false} RunKid(open: seq<Doc>, d: Doc, kid: Kid, rest: seq<Byte>)
    ensures Run([START, kid.doc.typ]
                + (Text(kid.doc.props) + KidsText(kid.doc.kids) + [END] + (Text(kid.junk) + rest)), Open(open + [d]))
         == Run(rest, Open(open + [d.(kids := d.kids + [kid])]))
    decreases kid.doc, 2
  {
    hide Text, KidsText, Finish, Begin, AddToks, Run, AddTok;
    RunBegin(open + [d], kid.doc.typ,
             Text(kid.doc.props) + KidsText(kid.doc.kids) + [END] + (Text(kid.junk) + rest));
    RunDoc(open + [d], kid.doc, Text(kid.junk) + rest);
    FinishKid(open, d, kid.doc);
    RunText(kid.junk, rest, Open(open + [d.(kids := d.kids + [Kid(kid.doc, [])])]));
    JunkRead(open, d, kid.doc, kid.junk);
  }

  lemma {:induction false} TrailerRead(root: Doc, toks: seq<Tok>)
    ensures AddToks(Closed(root, []), toks) == Closed(root, toks)
    decreases |toks|
  {
    hide AddTok;
    if toks != [] {
      var front, last := toks[..|toks| - 1], toks[|toks| - 1];
      TrailerRead(root, front);
      AddTokClosed(root, front, last);
      assert front + [last] == toks;
    }
  }

  lemma AddTokClosed(root: Doc, toks: seq<Tok>, t: Tok)
    ensures AddTok(Closed(root, toks), t) == Closed(root, toks + [t])
  {
  }

  /** Every document is accepted, and read as itself. */
  lemma {:induction false} RunIsComplete(d: Doc, trailer: seq<Tok>)
    ensures Run((Render(d) + Text(trailer))[2..], Begin([], d.typ)) == Some(Closed(d, trailer))
  {
    hide Text, KidsText, Run, AddTok, AddToks, Begin, Finish, Render;
    AfterMark(d, Text(trailer));
    RunDoc([], d, Text(trailer));
    assert [] + [d] == [d];
    RunText(trailer, [], Closed(d, []));
    assert Text(trailer) + [] == Text(trailer);
    TrailerRead(d, trailer);
    RunEnds(Closed(d, trailer));
  }

  lemma AfterMark(d: Doc, rest: seq<Byte>)
    ensures (Render(d) + rest)[2..] == Text(d.props) + KidsText(d.kids) + [END] + rest
  {
    hide Text, KidsText;
    var body := Text(d.props) + KidsText(d.kids) + [END];
    assert Render(d) == [START, d.typ] + body;
    assert ([START, d.typ] + body + rest)[2..] == body + rest;
  }

  ghost predicate Spells(bytes: seq<Byte>, d: Doc, trailer: seq<Tok>)
  {
    bytes == Render(d) + Text(trailer)
  }

  /** No byte sequence spells two documents. */
  lemma {:induction false} SpellingIsUnique(bytes: seq<Byte>, d: Doc, trailer: seq<Tok>, d': Doc, trailer': seq<Tok>)
    requires Spells(bytes, d, trailer) && Spells(bytes, d', trailer')
    ensures d == d' && trailer == trailer'
  {
    assert bytes[1] == Render(d)[1] == d.typ && bytes[1] == Render(d')[1] == d'.typ;
    RunIsComplete(d, trailer);
    RunIsComplete(d', trailer');
  }

  /** The machine accepts a sequence if and only if it spells a document. */
  lemma {:induction false} AcceptsSpellings(bytes: seq<Byte>)
    requires |bytes| >= 2
    ensures bytes[0] == START && Run(bytes[2..], Begin([], bytes[1])).Some?
            <==> exists d, trailer :: Spells(bytes, d, trailer)
    ensures bytes[0] == START && Run(bytes[2..], Begin([], bytes[1])).Some? ==>
              var m := Run(bytes[2..], Begin([], bytes[1])).value;
              m.Closed? && Spells(bytes, m.root, m.trailer)
  {
    if d, trailer :| Spells(bytes, d, trailer) {
      RunIsComplete(d, trailer);
      assert bytes[0] == Render(d)[0] && bytes[1] == Render(d)[1];
    }
    if bytes[0] == START && Run(bytes[2..], Begin([], bytes[1])).Some? {
      RunIsSound(bytes[2..], Begin([], bytes[1]));
      ReadBegin([], bytes[1]);
      assert bytes == [START, bytes[1]] + bytes[2..];
      var m := Run(bytes[2..], Begin([], bytes[1])).value;
      assert Spells(bytes, m.root, m.trailer);
    }
  }

  // ----- Loader::parseTree on its nodes and stack of pointers -----

  /** The identifier in front of the root node. */
  const BASE: nat := 4

  class Node {
    var children: seq<Node>
    var propsBegin: nat
    var propsEnd: nat
    var typ: Byte

    constructor ()
      ensures children == []
    {
      children, propsBegin, propsEnd, typ := [], 0, 0, 0;
    }
  }

  /** Where the text of kid `k` starts, for a node whose own text starts at `o`. */
  function KidAt(d: Doc, o: nat, k: nat): nat
    requires k <= |d.kids|
  {
    o + 2 + |Text(d.props)| + |KidsText(d.kids[..k])|
  }

  /** The finished node `n` and everything below it describe the document `d` at offset `o`. */
  ghost predicate Holds(n: Node, d: Doc, o: nat, done: set<Node>)
    reads done
    decreases d
  {
    && n in done && n.typ == d.typ && n.propsBegin == o + 2 && n.propsEnd == o + 2 + |Text(d.props)|
    && |n.children| == |d.kids|
    && forall k | 0 <= k < |d.kids| :: Holds(n.children[k], d.kids[k].doc, KidAt(d, o, k), done)
  }

  /** An open node: its finished children, and then `next`, the open one inside it, if any. */
  ghost predicate Holding(n: Node, d: Doc, o: nat, next: Node?, done: set<Node>)
    reads n, done
  {
    && n !in done && n.typ == d.typ && n.propsBegin == o + 2
    && |n.children| == |d.kids| + (if next == null then 0 else 1)
    && (next != null ==> n.children[|d.kids|] == next)
    && (n.children != [] ==> n.propsEnd == o + 2 + |Text(d.props)|)
    && forall k | 0 <= k < |d.kids| :: Holds(n.children[k], d.kids[k].doc, KidAt(d, o, k), done)
  }

  /** Every stacked pointer is the last child of the one below it, and all describe `open`. */
  ghost predicate Stacked(stack: seq<Node>, open: seq<Doc>, next: Node?, done: set<Node>)
    reads stack, done
  {
    var n := |stack|;
    && n == |open|
    && (n > 0 ==>
          && stack[n - 1] !in stack[..n - 1]
          && Holding(stack[n - 1], open[n - 1], BASE + |OpenText(open[..n - 1])|, next, done)
          && Stacked(stack[..n - 1], open[..n - 1], stack[n - 1], done))
  }

  lemma {:induction false} HoldsMore(n: Node, d: Doc, o: nat, done: set<Node>, done': set<Node>)
    requires Holds(n, d, o, done) && done <= done'
    ensures Holds(n, d, o, done')
    decreases d
  {
    forall k | 0 <= k < |d.kids| ensures Holds(n.children[k], d.kids[k].doc, KidAt(d, o, k), done') {
      HoldsMore(n.children[k], d.kids[k].doc, KidAt(d, o, k), done, done');
    }
  }

  lemma {:induction false} StackedMore(stack: seq<Node>, open: seq<Doc>, next: Node?, done: set<Node>, x: Node)
    requires Stacked(stack, open, next, done) && x !in stack
    ensures Stacked(stack, open, next, done + {x})
    decreases |stack|
  {
    hide Text, KidsText, OpenText, KidAt, Holds;
    var m := |stack| - 1;
    if m >= 0 {
      StackedMore(stack[..m], open[..m], stack[m], done, x);
      var n, d, o := stack[m], open[m], BASE + |OpenText(open[..m])|;
      forall k | 0 <= k < |d.kids| ensures Holds(n.children[k], d.kids[k].doc, KidAt(d, o, k), done + {x}) {
        HoldsMore(n.children[k], d.kids[k].doc, KidAt(d, o, k), done, done + {x});
      }
    }
  }

  lemma TokKeepsKids(d: Doc, t: Tok, o: nat)
    ensures var d' := WithTok(d, t);
            && d'.typ == d.typ && |d'.kids| == |d.kids| && (d.kids != [] ==> d'.props == d.props)
            && forall k | 0 <= k < |d.kids| ::
                 d'.kids[k].doc == d.kids[k].doc && KidAt(d', o, k) == KidAt(d, o, k)
  {
    hide Text, KidsText;
    forall k | 0 <= k < |d.kids| ensures WithTok(d, t).kids[..k] == d.kids[..k] {
    }
  }

  /** A byte that is no mark changes no node. */
  lemma StackedTok(stack: seq<Node>, open: seq<Doc>, done: set<Node>, t: Tok)
    requires open != [] && Stacked(stack, open, null, done)
    ensures Stacked(stack, AddTok(Open(open), t).open, null, done)
  {
    var m := |open| - 1;
    hide Text, KidsText, OpenText, Holds, WithTok;
    var n, d, d', o := stack[m], open[m], WithTok(open[m], t), BASE + |OpenText(open[..m])|;
    var open' := AddTok(Open(open), t).open;
    assert open'[..m] == open[..m] && open'[m] == d';
    TokKeepsKids(d, t, o);
    forall k | 0 <= k < |d'.kids| ensures Holds(n.children[k], d'.kids[k].doc, KidAt(d', o, k), done) {
      assert Holds(n.children[k], d.kids[k].doc, KidAt(d, o, k), done);
    }
  }

  /** The start of a child: the innermost open node learns where its properties ended. */
  method StartChild(stack: seq<Node>, it: nat, ghost open: seq<Doc>, ghost done: set<Node>) returns (child: Node)
    requires stack != [] && Stacked(stack, open, null, done) && it == BASE + |OpenText(open)|
    modifies stack[|stack| - 1]
    ensures fresh(child) && child.children == [] && Stacked(stack, open, child, done)
  {
    hide Text, KidsText, Holds, Opening;
    var currentNode := stack[|stack| - 1];
    TopText(open);
    if currentNode.children == [] {
      currentNode.propsEnd := it;
    }
    child := new Node();
    currentNode.children := currentNode.children + [child];
  }

  lemma TopText(open: seq<Doc>)
    requires open != []
    ensures var d := open[|open| - 1];
            && |OpenText(open)| == |OpenText(open[..|open| - 1])| + |Opening(d)|
            && |Opening(d)| == 2 + |Text(d.props)| + |KidsText(d.kids)|
            && |KidsText([])| == 0
  {
  }

  /** The end of the innermost open node. */
  method EndNode(stack: seq<Node>, it: nat, ghost open: seq<Doc>, ghost done: set<Node>)
    requires stack != [] && Stacked(stack, open, null, done) && it == BASE + |OpenText(open)|
    modifies stack[|stack| - 1]
    ensures |open| == |stack|
    ensures |stack| == 1 ==> Holds(stack[0], open[0], BASE, done + {stack[0]})
    ensures |stack| > 1 ==>
              Stacked(stack[..|stack| - 1], Finish(open).open, null, done + {stack[|stack| - 1]})
  {
    hide Text, KidsText, Opening, OpenText, Holds, Finish;
    var n := |stack|;
    var currentNode := stack[n - 1];
    TopText(open);
    if currentNode.children == [] {
      currentNode.propsEnd := it;
    }
    ghost var d, o, done' := open[n - 1], BASE + |OpenText(open[..n - 1])|, done + {currentNode};
    Completed(currentNode, d, o, done);
    if n == 1 {
      NothingOpen(open[..0]);
    } else {
      StackedMore(stack[..n - 1], open[..n - 1], currentNode, done, currentNode);
      ChildDone(stack[..n - 1], open[..n - 1], currentNode, d, done');
      FinishUp(open);
    }
  }

  lemma NothingOpen(open: seq<Doc>)
    requires open == []
    ensures OpenText(open) == []
  {
  }

  /** A node whose properties end where they should is complete. */
  lemma Completed(n: Node, d: Doc, o: nat, done: set<Node>)
    requires Holding(n, d, o, null, done) && n.propsEnd == o + 2 + |Text(d.props)|
    ensures Holds(n, d, o, done + {n})
  {
    hide Text, KidsText, KidAt;
    forall k | 0 <= k < |d.kids| ensures Holds(n.children[k], d.kids[k].doc, KidAt(d, o, k), done + {n}) {
      HoldsMore(n.children[k], d.kids[k].doc, KidAt(d, o, k), done, done + {n});
    }
  }

  lemma FinishUp(open: seq<Doc>)
    requires |open| > 1
    ensures var up, below := open[|open| - 2], open[..|open| - 1];
            Finish(open).open == below[..|below| - 1] + [up.(kids := up.kids + [Kid(open[|open| - 1], [])])]
  {
    assert open[..|open| - 1][..|open| - 2] == open[..|open| - 2];
  }

  /** The node that was open inside the innermost one counts as its last child. */
  lemma ChildDone(stack: seq<Node>, open: seq<Doc>, child: Node, d: Doc, done: set<Node>)
    requires stack != [] && Stacked(stack, open, child, done) && Holds(child, d, BASE + |OpenText(open)|, done)
    ensures var up := open[|open| - 1];
            Stacked(stack, open[..|open| - 1] + [up.(kids := up.kids + [Kid(d, [])])], null, done)
  {
    hide Text, KidsText, Opening;
    var m := |open| - 1;
    var up, o := open[m], BASE + |OpenText(open[..m])|;
    var up' := up.(kids := up.kids + [Kid(d, [])]);
    var open' := open[..m] + [up'];
    assert open'[..m] == open[..m];
    TopText(open);
    assert up'.kids[..|up.kids|] == up.kids;
    forall k | 0 <= k < |up'.kids| ensures Holds(stack[m].children[k], up'.kids[k].doc, KidAt(up', o, k), done) {
      if k < |up.kids| {
        assert up'.kids[..k] == up.kids[..k];
      }
    }
  }

  lemma RootOpen(root: Node)
    requires root.children == [] && root.propsBegin == BASE + 2
    ensures Stacked([root], Begin([], root.typ).open, null, {})
  {
  }

  lemma RootRead(typ: Byte)
    ensures |Read(Begin([], typ))| == 2
  {
    hide Text, KidsText, Opening, Begin, Read;
    ReadBegin([], typ);
  }

  lemma PushChild(stack: seq<Node>, open: seq<Doc>, child: Node, done: set<Node>)
    requires Stacked(stack, open, child, done) && child !in stack && child !in done
    requires child.children == [] && child.propsBegin == BASE + |OpenText(open)| + 2
    ensures Stacked(stack + [child], Begin(open, child.typ).open, null, done)
  {
    var open' := Begin(open, child.typ).open;
    assert (stack + [child])[..|stack|] == stack && open'[..|open|] == open;
  }

  lemma SkipTok(m: Machine, t: Tok, root: Node, stack: seq<Node>, done: set<Node>)
    requires Running(m)
    requires if m.Open? then Stacked(stack, m.open, null, done) else Holds(root, m.root, BASE, done)
    ensures var r := AddTok(m, t);
            && r.Open? == m.Open?
            && (if r.Open? then Stacked(stack, r.open, null, done) else Holds(root, r.root, BASE, done))
  {
    hide Stacked, Holds;
    if m.Open? {
      StackedTok(stack, m.open, done, t);
    }
  }

  /** What the machine makes of a file. */
  ghost function Accepted(fileContents: seq<Byte>): Option<Machine>
    requires |fileContents| > 7
  {
    Run(fileContents[BASE + 2..], Begin([], fileContents[BASE + 1]))
  }

  /** The machine has come to offset `it` and to state `m`. */
  ghost predicate Parsed(fileContents: seq<Byte>, it: nat, m: Machine)
  {
    && |fileContents| > 7 && it <= |fileContents| && Running(m) && it == BASE + |Read(m)|
    && Accepted(fileContents) == Run(fileContents[it..], m)
  }

  lemma AcceptsFiles(fileContents: seq<Byte>)
    requires |fileContents| > 7
    ensures fileContents[BASE] == START && Accepted(fileContents).Some?
            <==> exists d, t :: Spells(fileContents[BASE..], d, t)
    ensures fileContents[BASE] == START && Accepted(fileContents).Some? ==>
              var m := Accepted(fileContents).value;
              m.Closed? && Spells(fileContents[BASE..], m.root, m.trailer)
  {
    hide Run, Begin, Spells;
    var bytes := fileContents[BASE..];
    assert bytes[2..] == fileContents[BASE + 2..];
    AcceptsSpellings(bytes);
  }

  lemma ParsedRoot(fileContents: seq<Byte>)
    requires |fileContents| > 7
    ensures Parsed(fileContents, BASE + 2, Begin([], fileContents[BASE + 1]))
  {
    hide Run, Begin, Read;
    RootRead(fileContents[BASE + 1]);
  }

  lemma ParsedMark(fileContents: seq<Byte>, it: nat, m: Machine)
    requires Parsed(fileContents, it, m) && it < |fileContents| && fileContents[it] == START
    ensures m.Closed? || it + 1 == |fileContents| ==> Accepted(fileContents) == None
    ensures m.Open? ==> it == BASE + |OpenText(m.open)|
    ensures m.Open? && it + 1 < |fileContents| ==>
              Parsed(fileContents, it + 2, Begin(m.open, fileContents[it + 1]))
  {
    hide Run, Begin, Read, OpenText, Accepted;
    var rest := fileContents[it..];
    RunStep(rest, m);
    if m.Open? {
      ReadOpen(m.open);
      if it + 1 < |fileContents| {
        ReadBegin(m.open, fileContents[it + 1]);
        assert rest[2..] == fileContents[it + 2..];
      }
    }
  }

  lemma ParsedEnd(fileContents: seq<Byte>, it: nat, m: Machine)
    requires Parsed(fileContents, it, m) && it < |fileContents| && fileContents[it] == END
    ensures m.Closed? ==> Accepted(fileContents) == None
    ensures m.Open? ==> it == BASE + |OpenText(m.open)| && Parsed(fileContents, it + 1, Finish(m.open))
  {
    hide Run, Finish, Read, OpenText, Accepted;
    var rest := fileContents[it..];
    RunStep(rest, m);
    if m.Open? {
      ReadOpen(m.open);
      ReadFinish(m.open);
      assert rest[1..] == fileContents[it + 1..];
    }
  }

  lemma ParsedTok(fileContents: seq<Byte>, it: nat, m: Machine)
    requires Parsed(fileContents, it, m) && it < |fileContents|
    requires fileContents[it] != START && fileContents[it] != END
    ensures fileContents[it] == ESCAPE && it + 1 == |fileContents| ==> Accepted(fileContents) == None
    ensures fileContents[it] == ESCAPE && it + 1 < |fileContents| ==>
              Parsed(fileContents, it + 2, AddTok(m, Escaped(fileContents[it + 1])))
    ensures fileContents[it] < ESCAPE ==> Parsed(fileContents, it + 1, AddTok(m, Plain(fileContents[it])))
  {
    hide Run, AddTok, Read, Accepted;
    var rest := fileContents[it..];
    RunStep(rest, m);
    if fileContents[it] < ESCAPE {
      ReadTok(m, Plain(fileContents[it]));
      assert rest[1..] == fileContents[it + 1..];
    } else if it + 1 < |fileContents| {
      ReadTok(m, Escaped(fileContents[it + 1]));
      assert rest[2..] == fileContents[it + 2..];
    }
  }

  lemma ParsedAll(fileContents: seq<Byte>, m: Machine)
    requires Parsed(fileContents, |fileContents|, m)
    ensures Accepted(fileContents) == if m.Closed? then Some(m) else None
  {
    hide Run, Read, Accepted;
    assert fileContents[|fileContents|..] == [];
    RunEnds(m);
  }

  method ParseTree(fileContents: seq<Byte>)
    returns (ok: bool, root: Node, ghost doc: Doc, ghost trailer: seq<Tok>, ghost done: set<Node>)
    requires |fileContents| > 7
    ensures ok <==> exists d, t :: Spells(fileContents[BASE..], d, t)
    ensures ok ==> Spells(fileContents[BASE..], doc, trailer) && Holds(root, doc, BASE, done)
  {
    hide Finish, Begin, AddTok, Holds, Holding, Stacked, Spells, Accepted, Parsed, OpenText;
    root := new Node();
    ok, doc, trailer, done := false, Doc(0, [], []), [], {};
    AcceptsFiles(fileContents);
    var it := BASE;
    if fileContents[it] != START {
      return;
    }
    it := it + 1;
    root.typ := fileContents[it];
    it := it + 1;
    root.propsBegin := it;
    var parseStack := [root];
    ghost var m := Begin([], root.typ);
    ParsedRoot(fileContents);
    RootOpen(root);
    while it != |fileContents|
      invariant it <= |fileContents| && Running(m) && Parsed(fileContents, it, m)
      invariant if m.Open? then parseStack != [] && parseStack[0] == root && Stacked(parseStack, m.open, null, done)
                else parseStack == [] && Holds(root, m.root, BASE, done)
      invariant forall k | 0 <= k < |parseStack| :: fresh(parseStack[k])
      decreases |fileContents| - it
    {
      if fileContents[it] == START {
        ParsedMark(fileContents, it, m);
        if parseStack == [] {
          return;
        }
        var child := StartChild(parseStack, it, m.open, done);
        it := it + 1;
        if it == |fileContents| {
          return;
        }
        child.typ := fileContents[it];
        child.propsBegin := it + 1;
        PushChild(parseStack, m.open, child, done);
        parseStack, m := parseStack + [child], Begin(m.open, child.typ);
      } else if fileContents[it] == END {
        ParsedEnd(fileContents, it, m);
        if parseStack == [] {
          return;
        }
        EndNode(parseStack, it, m.open, done);
        done := done + {parseStack[|parseStack| - 1]};
        parseStack, m := parseStack[..|parseStack| - 1], Finish(m.open);
      } else if fileContents[it] == ESCAPE {
        ParsedTok(fileContents, it, m);
        it := it + 1;
        if it == |fileContents| {
          return;
        }
        SkipTok(m, Escaped(fileContents[it]), root, parseStack, done);
        m := AddTok(m, Escaped(fileContents[it]));
      } else {
        ParsedTok(fileContents, it, m);
        SkipTok(m, Plain(fileContents[it]), root, parseStack, done);
        m := AddTok(m, Plain(fileContents[it]));
      }
      it := it + 1;
    }
    ParsedAll(fileContents, m);
    if parseStack != [] {
      return;
    }
    ok, doc, trailer := true, m.root, m.trailer;
  }

  // ----- Loader::getProps and what a reader of the tree sees -----

  /** The filter of getProps: an escape goes, unless it is itself escaped. */
  function Kept(bytes: seq<Byte>, lastEscaped: bool): seq<Byte>
  {
    if bytes == [] then []
    else if bytes[0] == ESCAPE && !lastEscaped then Kept(bytes[1..], true)
    else [bytes[0]] + Kept(bytes[1..], false)
  }

  /** The flag `lastEscaped` after the filter has seen `bytes`. */
  function Flag(bytes: seq<Byte>, last: bool): bool
  {
    if bytes == [] then last else Flag(bytes[1..], bytes[0] == ESCAPE && !last)
  }

  function Value(t: Tok): Byte
  {
    if t.Plain? then t.b else t.e
  }

  function Payload(toks: seq<Tok>): (r: seq<Byte>)
    ensures |r| == |toks|
  {
    seq(|toks|, k requires 0 <= k < |toks| => Value(toks[k]))
  }

  lemma {:induction false} KeptSplit(a: seq<Byte>, b: seq<Byte>, last: bool)
    ensures Kept(a + b, last) == Kept(a, last) + Kept(b, Flag(a, last))
    ensures Flag(a + b, last) == Flag(b, Flag(a, last))
    decreases |a|
  {
    if a == [] {
      assert a + b == b;
    } else {
      assert (a + b)[1..] == a[1..] + b;
      KeptSplit(a[1..], b, a[0] == ESCAPE && !last);
    }
  }

  lemma KeptTok(t: Tok)
    ensures Kept(TokText(t), false) == [Value(t)] && !Flag(TokText(t), false)
  {
    if t.Escaped? {
      assert [ESCAPE, t.e][1..] == [t.e];
      OneByte(t.e, true);
    } else {
      OneByte(t.b, false);
    }
  }

  lemma OneByte(b: Byte, last: bool)
    requires b != ESCAPE || last
    ensures Kept([b], last) == [b] && !Flag([b], last)
  {
    assert [b][1..] == [];
    assert Kept([], false) == [] && Flag([], false) == false;
    assert [b] + [] == [b];
  }

  /** Filtering the text of a property gives back its bytes. */
  lemma {:induction false} KeptText(toks: seq<Tok>)
    ensures Kept(Text(toks), false) == Payload(toks) && !Flag(Text(toks), false)
    ensures Text(toks) == [] <==> toks == []
  {
    if toks != [] {
      var front, t := toks[..|toks| - 1], toks[|toks| - 1];
      KeptText(front);
      KeptSplit(Text(front), TokText(t), false);
      KeptTok(t);
      assert Payload(toks) == Payload(front) + [Value(t)];
    }
  }

  method GetProps(fileContents: seq<Byte>, node: Node) returns (ok: bool, propBuffer: seq<Byte>)
    requires node.propsBegin <= node.propsEnd <= |fileContents|
    ensures ok <==> node.propsBegin != node.propsEnd
    ensures ok ==> propBuffer == Kept(fileContents[node.propsBegin..node.propsEnd], false)
  {
    propBuffer := [];
    if node.propsBegin == node.propsEnd {
      return false, [];
    }
    var it, lastEscaped := node.propsBegin, false;
    while it != node.propsEnd
      invariant node.propsBegin <= it <= node.propsEnd
      invariant propBuffer == Kept(fileContents[node.propsBegin..it], false)
      invariant lastEscaped == Flag(fileContents[node.propsBegin..it], false)
      decreases node.propsEnd - it
    {
      var byte := fileContents[it];
      ghost var seen := fileContents[node.propsBegin..it];
      assert fileContents[node.propsBegin..it + 1] == seen + [byte];
      KeptSplit(seen, [byte], false);
      lastEscaped := byte == ESCAPE && !lastEscaped;
      if !lastEscaped {
        propBuffer := propBuffer + [byte];
      }
      it := it + 1;
    }
    return true, propBuffer;
  }

  /** A tree as its writer and its readers think of it. */
  datatype Tree = Tree(typ: Byte, props: seq<Byte>, kids: seq<Tree>)

  function Meaning(d: Doc): Tree
  {
    Tree(d.typ, Payload(d.props), seq(|d.kids|, k requires 0 <= k < |d.kids| => Meaning(d.kids[k].doc)))
  }

  /** A writer escapes the property bytes that look like marks, and nothing else. */
  function Escape(b: Byte): Tok
  {
    if b < ESCAPE then Plain(b) else Escaped(b)
  }

  function Encode(t: Tree): Doc
  {
    Doc(t.typ, seq(|t.props|, k requires 0 <= k < |t.props| => Escape(t.props[k])),
        seq(|t.kids|, k requires 0 <= k < |t.kids| => Kid(Encode(t.kids[k]), [])))
  }

  lemma {:induction false} EncodeMeans(t: Tree)
    ensures Meaning(Encode(t)) == t
  {
    forall k | 0 <= k < |t.kids| ensures Meaning(Encode(t).kids[k].doc) == t.kids[k] {
      EncodeMeans(t.kids[k]);
    }
    assert Payload(Encode(t).props) == t.props;
    assert Meaning(Encode(t)).kids == t.kids;
  }

  /** Reading the node through getProps, and its children in order, shows the tree `t`. */
  ghost predicate Shows(fileContents: seq<Byte>, n: Node, t: Tree, done: set<Node>)
    reads done
    decreases t
  {
    && n in done && n.typ == t.typ && n.propsBegin <= n.propsEnd <= |fileContents|
    && (n.propsBegin == n.propsEnd <==> t.props == [])
    && Kept(fileContents[n.propsBegin..n.propsEnd], false) == t.props
    && |n.children| == |t.kids|
    && forall k | 0 <= k < |t.kids| :: Shows(fileContents, n.children[k], t.kids[k], done)
  }

  ghost predicate TextAt(fileContents: seq<Byte>, o: nat, text: seq<Byte>)
  {
    o + |text| <= |fileContents| && fileContents[o..o + |text|] == text
  }

  lemma TextAtPart(fileContents: seq<Byte>, o: nat, a: seq<Byte>, b: seq<Byte>, c: seq<Byte>)
    requires TextAt(fileContents, o, a + b + c)
    ensures TextAt(fileContents, o + |a|, b)
  {
    var text := a + b + c;
    forall k | 0 <= k < |b| ensures fileContents[o + |a| + k] == b[k] {
      assert fileContents[o..o + |text|][|a| + k] == text[|a| + k] == b[k];
    }
  }

  lemma {:induction false} KidTextAt(kids: seq<Kid>, k: nat)
    returns (after: seq<Byte>)
    requires k < |kids|
    ensures KidsText(kids) == KidsText(kids[..k]) + Render(kids[k].doc) + after
    decreases |kids|
  {
    hide Render, Text;
    var n := |kids| - 1;
    if k == n {
      after := Text(kids[k].junk);
    } else {
      var rest := KidTextAt(kids[..n], k);
      assert kids[..n][..k] == kids[..k];
      after := rest + Render(kids[n].doc) + Text(kids[n].junk);
      Assoc(KidsText(kids[..k]) + Render(kids[k].doc), rest, Render(kids[n].doc));
      Assoc(KidsText(kids[..k]) + Render(kids[k].doc), rest + Render(kids[n].doc), Text(kids[n].junk));
    }
  }

  /** Every node of a parsed file shows the document it was read from. */
  lemma {:induction false} ParsedShows(fileContents: seq<Byte>, n: Node, d: Doc, o: nat, done: set<Node>)
    requires Holds(n, d, o, done) && TextAt(fileContents, o, Render(d))
    ensures Shows(fileContents, n, Meaning(d), done)
    decreases d
  {
    hide Text, Render, KidsText, Kept, Flag;
    RenderIs(d);
    TextAtPart(fileContents, o, [START, d.typ], Text(d.props), KidsText(d.kids) + [END]);
    KeptText(d.props);
    forall k | 0 <= k < |d.kids| ensures Shows(fileContents, n.children[k], Meaning(d).kids[k], done) {
      var after := KidTextAt(d.kids, k);
      var before := [START, d.typ] + Text(d.props) + KidsText(d.kids[..k]);
      KidInside([START, d.typ] + Text(d.props), KidsText(d.kids[..k]), Render(d.kids[k].doc), after);
      TextAtPart(fileContents, o, before, Render(d.kids[k].doc), after + [END]);
      ParsedShows(fileContents, n.children[k], d.kids[k].doc, KidAt(d, o, k), done);
    }
  }

  lemma RenderIs(d: Doc)
    ensures Render(d) == [START, d.typ] + Text(d.props) + (KidsText(d.kids) + [END])
    ensures Render(d) == [START, d.typ] + Text(d.props) + KidsText(d.kids) + [END]
  {
    Assoc([START, d.typ] + Text(d.props), KidsText(d.kids), [END]);
  }

  lemma KidInside(head: seq<Byte>, kids: seq<Byte>, kid: seq<Byte>, after: seq<Byte>)
    ensures head + (kids + kid + after) + [END] == (head + kids) + kid + (after + [END])
  {
  }

  type Identifier = s: seq<Byte> | |s| == 4 witness [0, 0, 0, 0]

  const WILDCARD: Identifier := [0, 0, 0, 0]

  /** The constructor's checks and parseTree together. */
  method Load(fileContents: seq<Byte>, acceptedIdentifier: Identifier)
    returns (ok: bool, root: Node, ghost doc: Doc, ghost done: set<Node>)
    ensures ok <==>
              && |fileContents| > 7
              && (fileContents[..BASE] == acceptedIdentifier || fileContents[..BASE] == WILDCARD)
              && exists d, t :: Spells(fileContents[BASE..], d, t)
    ensures ok ==> Shows(fileContents, root, Meaning(doc), done)
    ensures forall d, t | ok && Spells(fileContents[BASE..], d, t) :: d == doc
  {
    hide Render, Text, Holds, Shows;
    root := new Node();
    ok, doc, done := false, Doc(0, [], []), {};
    if |fileContents| <= 7 {
      return;
    }
    var fileIdentifier := fileContents[..BASE];
    if fileIdentifier != acceptedIdentifier && fileIdentifier != WILDCARD {
      return;
    }
    ghost var trailer;
    ok, root, doc, trailer, done := ParseTree(fileContents);
    if ok {
      assert fileContents[BASE..][..|Render(doc)|] == Render(doc);
      ParsedShows(fileContents, root, doc, BASE, done);
      forall d, t | Spells(fileContents[BASE..], d, t) ensures d == doc {
        SpellingIsUnique(fileContents[BASE..], d, t, doc, trailer);
      }
    }
  }

  /** The one document the size check turns away: a root with nothing in it and nothing after it. */
  lemma SmallestIsRefused(d: Doc, trailer: seq<Tok>)
    ensures |Render(d) + Text(trailer)| <= 3 <==> d.props == [] && d.kids == [] && trailer == []
  {
    KeptText(d.props);
    KeptText(trailer);
    RenderIs(d);
    NoKids();
    if d.kids != [] {
      assert |Render(d.kids[|d.kids| - 1].doc)| >= 3;
    }
  }

  /**
   A written tree is read back as itself, whatever escape-closed bytes follow it. Only a root
   with nothing in it and nothing after it is refused.
   */
  method WriteThenLoad(id: Identifier, t: Tree, trailer: seq<Tok>)
    returns (ok: bool, root: Node, ghost done: set<Node>)
    ensures ok <==> t.props != [] || t.kids != [] || trailer != []
    ensures ok ==> Shows(id + Render(Encode(t)) + Text(trailer), root, t, done)
  {
    hide Render, Text, Shows;
    var fileContents := id + Render(Encode(t)) + Text(trailer);
    assert fileContents[BASE..] == Render(Encode(t)) + Text(trailer) && fileContents[..BASE] == id;
    assert Spells(fileContents[BASE..], Encode(t), trailer);
    SmallestIsRefused(Encode(t), trailer);
    ghost var doc;
    ok, root, doc, done := Load(fileContents, id);
    EncodeMeans(t);
  }
}
