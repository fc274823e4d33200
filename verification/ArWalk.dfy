// How the loop of the ar(1) reader walks over entries whose headers may be
// longer than it expects: `read_ar` of scripts/rust-port/release_contract.py.
module ArWalk {
  import opened Wrappers
  import opened Ar

  // A written entry: its bytes, by how many of them its header is too long, the
  // length of its blob, and the member that is read from it, given the bytes
  // before it that the reader takes for its start; None where the name raises.
  datatype Piece = Piece(text: string, surplus: nat, size: nat, read: string -> Option<Member>)

  // The size has room in the columns of its field that are read by a reader t
  // bytes ahead.
  predicate HasRoom(size: nat, t: nat) { t <= 2 && size < Limit(t) }

  function Limit(t: nat): nat { if t == 0 then 10_000_000_000 else if t == 1 then 1_000_000_000 else 100_000_000 }

  // Nine bytes ahead it still sees a digit of the size.
  predicate Fits(size: nat, t: nat) { t <= 9 && (t <= 2 ==> HasRoom(size, t)) }

  // Every entry the reader gets to fits; more than two bytes ahead it gets no
  // further.
  predicate AllFit(ps: seq<Piece>, shift: nat)
  {
    ps != [] ==>
      var t := shift + ps[0].surplus;
      Fits(ps[0].size, t) && (t <= 2 ==> AllFit(ps[1..], t))
  }

  // The turn at an entry, from some bytes before it.
  function Expected(p: Piece, before: string, pos: int): Turn
  {
    if |before| + p.surplus > 2 then Bad(ValueError)
    else
      match p.read(before)
      case None => Bad(ValueError)
      case Some(back) => Go(back, After(pos, p.size))
  }

  function Texts(ps: seq<Piece>): string { if ps == [] then "" else ps[0].text + Texts(ps[1..]) }

  // The dictionary that the members build up, one assignment after another.
  function PutAll(out: seq<Member>, ms: seq<Member>): seq<Member>
    decreases |ms|
  {
    if ms == [] then out else PutAll(Put(out, ms[0]), ms[1..])
  }

  // What is read of the entries after `pre`, by a reader that is at pos; None
  // where one of them raises.
  function AllReadBack(pre: string, ps: seq<Piece>, pos: int): Option<seq<Member>>
    requires 0 <= pos <= |pre|
    decreases |ps|
  {
    if ps == [] then Some([])
    else
      match Expected(ps[0], pre[pos..], pos)
      case Go(back, next) =>
        var passed := pre + ps[0].text;
        if 0 <= next <= |passed| then Cons(back, AllReadBack(passed, ps[1..], next)) else None
      case _ => None
  }

  function Cons(m: Member, ms: Option<seq<Member>>): Option<seq<Member>>
  {
    match ms case None => None case Some(others) => Some([m] + others)
  }

  function Outcome(out: seq<Member>, back: Option<seq<Member>>): Reading
  {
    match back case None => Raised(ValueError) case Some(ms) => Finished(PutAll(out, ms))
  }

  // An entry is as long as its size says.
  predicate Sized(p: Piece)
  {
    HasRoom(p.size, p.surplus) ==> |p.text| == 60 + p.surplus + p.size + p.size % 2
  }

  // The turns read an entry so wherever it stands in the data.
  ghost predicate TakesOff(tr: int -> Turn, data: string, pre: string, p: Piece, more: string, pos: int)
  {
    data == pre + p.text + more && 0 <= pos <= |pre| && Fits(p.size, |pre| - pos + p.surplus) ==>
      tr(pos) == Expected(p, pre[pos..], pos)
  }

  ghost predicate Reads(tr: int -> Turn, data: string, p: Piece)
  {
    Sized(p) && forall pre, more, pos: int :: TakesOff(tr, data, pre, p, more, pos)
  }

  // ---------------------------------------------------------------- one entry after the other

  lemma {:induction false} OutcomeStep(out: seq<Member>, m: Member, back: Option<seq<Member>>)
    ensures Outcome(out, Cons(m, back)) == Outcome(Put(out, m), back)
  {
    if back.Some? {
      assert ([m] + back.value)[1..] == back.value;
    }
  }

  lemma {:induction false} NextText(pre: string, ps: seq<Piece>)
    requires ps != []
    ensures pre + Texts(ps) == pre + ps[0].text + Texts(ps[1..])
  {
  }

  // The reader keeps its distance, and adds the surplus of the header to it.
  lemma {:induction false} NextPosition(p: Piece, pre: string, pos: int, t: nat, turn: Turn)
    requires 0 <= pos <= |pre| && t == |pre| - pos + p.surplus && Fits(p.size, t) && Sized(p)
    requires turn == Expected(p, pre[pos..], pos) && turn.Go?
    ensures t <= 2 && pos < turn.next == |pre + p.text| - t
  {
    assert |pre[pos..]| == |pre| - pos;
  }

  lemma {:induction false} ReadBackStep(pre: string, ps: seq<Piece>, pos: int, turn: Turn, passed: string)
    requires ps != [] && 0 <= pos <= |pre| && turn == Expected(ps[0], pre[pos..], pos) && passed == pre + ps[0].text
    ensures !turn.Go? ==> turn == Bad(ValueError) && AllReadBack(pre, ps, pos) == None
    ensures turn.Go? && 0 <= turn.next <= |passed| ==>
      AllReadBack(pre, ps, pos) == Cons(turn.member, AllReadBack(passed, ps[1..], turn.next))
  {
  }

  // The turn at the first of some entries, and the text it has passed.
  lemma {:induction false} FirstTurn(tr: int -> Turn, data: string, pre: string, ps: seq<Piece>, pos: int)
    returns (turn: Turn, passed: string)
    requires ps != [] && Reads(tr, data, ps[0])
    requires data == pre + Texts(ps) && 0 <= pos <= |pre| <= pos + 2 && AllFit(ps, |pre| - pos)
    ensures turn == tr(pos)
    ensures !turn.Go? ==> turn == Bad(ValueError) && AllReadBack(pre, ps, pos) == None
    ensures turn.Go? ==>
      && data == passed + Texts(ps[1..]) && pos < turn.next <= |passed| <= turn.next + 2
      && AllFit(ps[1..], |passed| - turn.next)
      && AllReadBack(pre, ps, pos) == Cons(turn.member, AllReadBack(passed, ps[1..], turn.next))
  {
    var t := |pre| - pos + ps[0].surplus;
    turn, passed := tr(pos), pre + ps[0].text;
    NextText(pre, ps);
    assert TakesOff(tr, data, pre, ps[0], Texts(ps[1..]), pos);
    ReadBackStep(pre, ps, pos, turn, passed);
    if turn.Go? {
      NextPosition(ps[0], pre, pos, t, turn);
      assert |passed| - turn.next == t;
    }
  }

  // The loop reads the entries as the reader sees them, in order.
  lemma {:induction false} EntriesRead(tr: int -> Turn, near: set<int>, data: string, pre: string, ps: seq<Piece>, pos: int,
                                       out: seq<Member>, seen: set<int>)
    requires Within(tr, near) && (forall p: int :: p + 60 > |data| ==> tr(p) == Stop) && forall p :: p in seen ==> p < pos
    requires forall i :: 0 <= i < |ps| ==> Reads(tr, data, ps[i])
    requires data == pre + Texts(ps) && 0 <= pos <= |pre| <= pos + 2 && AllFit(ps, |pre| - pos)
    ensures ReadFrom(tr, near, pos, out, seen) == Outcome(out, AllReadBack(pre, ps, pos))
    decreases |ps|
  {
    ReadOn(tr, near, pos, out, seen);
    if ps != [] {
      var turn, passed := FirstTurn(tr, data, pre, ps, pos);
      if turn.Go? {
        EntriesRead(tr, near, data, passed, ps[1..], turn.next, Put(out, turn.member), seen + {pos});
        OutcomeStep(out, turn.member, AllReadBack(passed, ps[1..], turn.next));
      }
    }
  }
}
