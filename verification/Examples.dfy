/** One message from end to end, byte by byte. */
module Examples {
  import opened Words
  import opened RangeCoding
  import opened FrequencyTree
  import opened ContextModel
  import opened PpmCoding

  const A: Byte := 97

  function Single(count: nat): Tree {
    Node(A, count, Leaf, Leaf)
  }

  // The models after one, two and three times the letter a

  const ONE := Model(map[[] := Context(Single(3), 1, 260)], [A], 2)

  const TWO := Model(map[[] := Context(Single(6), 1, 263), [A] := Context(Single(2), 5, 7)], [A, A], 3)

  const THREE :=
    Model(map[[] := Context(Single(6), 1, 263), [A] := Context(Single(4), 5, 9), [A, A] := Context(Single(2), 5, 7)],
          [A, A], 4)

  lemma FirstByte()
    ensures Shares(map[], [], A) == [Share(98, 1, 257)] && After(FRESH_MODEL, A) == ONE
  {
  }

  lemma SecondByte()
    ensures Shares(ONE.contexts, ONE.history, A) == [Share(98, 4, 260)] && After(ONE, A) == TWO
  {
    assert [A][1..] == [];
    var cs := ONE.contexts;
    assert Stop(cs, [], A) == [];
    assert Stop(cs, [A], A) == [];
    assert Learned(EmptyContext(false), false, A) == Context(Single(2), 5, 7);
    assert Learned(cs[[]], true, A) == Context(Single(6), 1, 263);
    var cs' := LearnAt(cs, [A], A);
    assert Learn(cs', [], [], A) == LearnAt(cs', [], A) && Learn(cs, [A], [], A) == LearnAt(cs', [], A);
    assert Created(cs, [], [], A) == 0 && Created(cs, [A], [], A) == 1;
    assert LearnAt(cs', [], A) == TWO.contexts;
  }

  lemma ThirdByte()
    ensures Shares(TWO.contexts, TWO.history, A) == [Share(5, 2, 7)] && After(TWO, A) == THREE
  {
    assert [A, A][1..] == [A];
    var cs := TWO.contexts;
    assert Stop(cs, [A], A) == [A];
    assert Stop(cs, [A, A], A) == [A];
    assert Learned(EmptyContext(false), false, A) == Context(Single(2), 5, 7);
    assert Learned(cs[[A]], false, A) == Context(Single(4), 5, 9);
    var cs' := LearnAt(cs, [A, A], A);
    assert Learn(cs', [A], [A], A) == LearnAt(cs', [A], A) && Learn(cs, [A, A], [A], A) == LearnAt(cs', [A], A);
    assert Created(cs, [A], [A], A) == 0 && Created(cs, [A, A], [A], A) == 1;
    assert LearnAt(cs', [A], A) == THREE.contexts;
  }

  lemma FourthByte()
    ensures Shares(THREE.contexts, THREE.history, A) == [Share(5, 2, 7)]
  {
  }

  /** One byte of a message that has a single share. */
  lemma OneShare(m: Model, v: Byte, rest: seq<Byte>, x: Share, m': Model)
    requires ValidModel(m) && Shares(m.contexts, m.history, v) == [x] && After(m, v) == m'
    ensures ValidModel(m') && AllShares(m, [v] + rest) == [x] + AllShares(m', rest)
  {
    hide Shares, After, AllShares;
    AllSharesStep(m, [v] + rest);
    assert ([v] + rest)[1..] == rest;
  }

  lemma FourShares()
    ensures AllShares(FRESH_MODEL, [A, A, A, A]) ==
            [Share(98, 1, 257), Share(98, 4, 260), Share(5, 2, 7), Share(5, 2, 7)]
  {
    hide Shares, After, AllShares, ValidModel;
    FreshIsValid();
    FirstByte();
    SecondByte();
    ThirdByte();
    FourthByte();
    assert [A] + [A, A, A] == [A, A, A, A] && [A] + [A, A] == [A, A, A] && [A] + [A] == [A, A] && [A] + [] == [A];
    OneShare(FRESH_MODEL, A, [A, A, A], Share(98, 1, 257), ONE);
    OneShare(ONE, A, [A, A], Share(98, 4, 260), TWO);
    OneShare(TWO, A, [A], Share(5, 2, 7), THREE);
    OneShare(THREE, A, [], Share(5, 2, 7), After(THREE, A));
    NoShares(After(THREE, A));
  }

  lemma FreshIsValid()
    ensures ValidModel(FRESH_MODEL)
  {
  }

  /** Emitting the shares one by one, and then the flushed low word. */
  lemma FourEmissions()
    ensures AllProper([Share(98, 1, 257), Share(98, 4, 260), Share(5, 2, 7), Share(5, 2, 7)])
    ensures EncodeAll(FULL_INTERVAL, [Share(98, 1, 257), Share(98, 4, 260), Share(5, 2, 7), Share(5, 2, 7)]) ==
            [98, 2, 25, 153]
  {
    hide Normalize, EncodeAll, Narrow;
    var x, y, z := Share(98, 1, 257), Share(98, 4, 260), Share(5, 2, 7);
    var i, j, k, l := Interval(1637769630, 16711935), Interval(1644068678, 257104), Interval(21799680, 18805248),
                      Interval(429457408, 1375469568);
    FirstEmission();
    SecondEmission();
    ThirdEmission();
    FourthEmission();
    EncodeStep(FULL_INTERVAL, x, [y, z, z]);
    EncodeStep(i, y, [z, z]);
    EncodeStep(j, z, [z]);
    EncodeStep(k, z, []);
    LastWord();
    EncodeNone(l);
    assert [x] + [y, z, z] == [x, y, z, z] && [y] + [z, z] == [y, z, z] && [z] + [z] == [z, z] && [z] + [] == [z];
  }

  lemma EncodeStep(i: Interval, x: Share, rest: seq<Share>)
    requires Ready(i) && Proper(x) && AllProper(rest)
    ensures AllProper([x] + rest)
    ensures EncodeAll(i, [x] + rest) == Encode(i, x).bytes + EncodeAll(Encode(i, x).interval, rest)
  {
    hide Encode;
    assert ([x] + rest)[1..] == rest;
  }

  lemma EncodeNone(i: Interval)
    requires Ready(i)
    ensures EncodeAll(i, []) == Flush(i.low)
  {
  }

  lemma FirstEmission()
    ensures Encode(FULL_INTERVAL, Share(98, 1, 257)) == Coded([], Interval(1637769630, 16711935))
  {
  }

  lemma SecondEmission()
    ensures Encode(Interval(1637769630, 16711935), Share(98, 4, 260)) == Coded([], Interval(1644068678, 257104))
  {
  }

  lemma ThirdEmission()
    ensures Encode(Interval(1644068678, 257104), Share(5, 2, 7)) == Coded([98], Interval(21799680, 18805248))
  {
  }

  lemma FourthEmission()
    ensures Encode(Interval(21799680, 18805248), Share(5, 2, 7)) == Coded([2], Interval(429457408, 1375469568))
  {
  }

  lemma LastWord()
    ensures Flush(429457408) == [25, 153]
  {
  }

  /** The stream of four letters a. */
  lemma FourLetters()
    ensures Stream([97, 97, 97, 97]) == [98, 2, 25, 153]
  {
    hide AllShares, EncodeAll;
    FourShares();
    FourEmissions();
  }
}
