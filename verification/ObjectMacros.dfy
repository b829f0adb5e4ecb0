/** Expansion with object-like macros only: what the result is, and how deep it may nest. */
module ObjectMacros {
  import opened Words
  import opened MacroExpansion

  predicate ObjectLike(tbl: map<string, Macro>) { forall n :: n in tbl ==> !tbl[n].isFunction }

  // ----- the meaning of a text -----

  // Every word is replaced that names a macro and did not come from an expansion of it; a word that
  // did is marked.  Nothing is scanned twice, and there is no cap.
  function Meaning(tbl: map<string, Macro>, text: seq<Token>): seq<Token> {
    if text == [] then [] else WordMeaning(tbl, text[0]) + Meaning(tbl, text[1..])
  }

  function Room(tbl: map<string, Macro>, t: Token): set<string> { if t.Word? then tbl.Keys - t.from else {} }

  function WordMeaning(tbl: map<string, Macro>, t: Token): seq<Token>
    decreases Room(tbl, t), 1, 0
  {
    if !Live(tbl, t) then [t]
    else if t.name in t.from then [t.(marked := true)]
    else
      assert t.name in tbl.Keys - t.from && t.name !in tbl.Keys - (t.from + {t.name});
      BodyMeaning(tbl, tbl[t.name].body, t.from + {t.name})
  }

  function BodyMeaning(tbl: map<string, Macro>, body: seq<Token>, from: set<string>): seq<Token>
    decreases tbl.Keys - from, 2, |body|
  {
    if body == [] then []
    else WordMeaning(tbl, if body[0].Word? then body[0].(from := from) else body[0]) + BodyMeaning(tbl, body[1..], from)
  }

  // How deep the expansion of a text nests; a word that is only marked takes one level.
  function Height(tbl: map<string, Macro>, text: seq<Token>): nat {
    if text == [] then 0 else Max(WordHeight(tbl, text[0]), Height(tbl, text[1..]))
  }

  function WordHeight(tbl: map<string, Macro>, t: Token): nat
    decreases Room(tbl, t), 1, 0
  {
    if !Live(tbl, t) then 0
    else if t.name in t.from then 1
    else
      assert t.name in tbl.Keys - t.from && t.name !in tbl.Keys - (t.from + {t.name});
      1 + BodyHeight(tbl, tbl[t.name].body, t.from + {t.name})
  }

  function BodyHeight(tbl: map<string, Macro>, body: seq<Token>, from: set<string>): nat
    decreases tbl.Keys - from, 2, |body|
  {
    if body == [] then 0
    else Max(WordHeight(tbl, if body[0].Word? then body[0].(from := from) else body[0]), BodyHeight(tbl, body[1..], from))
  }

  lemma {:induction false} BodyAsText(tbl: map<string, Macro>, body: seq<Token>, from: set<string>)
    ensures BodyMeaning(tbl, body, from) == Meaning(tbl, Stamp(body, from))
    ensures BodyHeight(tbl, body, from) == Height(tbl, Stamp(body, from))
  {
    hide WordMeaning, WordHeight;
    if body != [] {
      BodyAsText(tbl, body[1..], from);
    }
  }

  lemma {:induction false} MeaningConcat(tbl: map<string, Macro>, a: seq<Token>, b: seq<Token>)
    ensures Meaning(tbl, a + b) == Meaning(tbl, a) + Meaning(tbl, b)
  {
    hide WordMeaning;
    if a == [] {
      assert a + b == b;
    } else {
      MeaningConcat(tbl, a[1..], b);
      assert (a + b)[1..] == a[1..] + b;
    }
  }

  // Nothing is left to replace.
  predicate Quiet(tbl: map<string, Macro>, text: seq<Token>) { forall t :: t in text ==> !Live(tbl, t) }

  lemma {:induction false} WordQuiet(tbl: map<string, Macro>, t: Token)
    ensures Quiet(tbl, WordMeaning(tbl, t))
    decreases Room(tbl, t), 1, 0
  {
    if Live(tbl, t) && t.name !in t.from {
      assert t.name in tbl.Keys - t.from && t.name !in tbl.Keys - (t.from + {t.name});
      BodyQuiet(tbl, tbl[t.name].body, t.from + {t.name});
    }
  }

  lemma {:induction false} BodyQuiet(tbl: map<string, Macro>, body: seq<Token>, from: set<string>)
    ensures Quiet(tbl, BodyMeaning(tbl, body, from))
    decreases tbl.Keys - from, 2, |body|
  {
    hide WordMeaning;
    if body != [] {
      WordQuiet(tbl, if body[0].Word? then body[0].(from := from) else body[0]);
      BodyQuiet(tbl, body[1..], from);
    }
  }

  lemma {:induction false} MeaningQuiet(tbl: map<string, Macro>, text: seq<Token>)
    ensures Quiet(tbl, Meaning(tbl, text))
  {
    hide WordMeaning;
    if text != [] {
      WordQuiet(tbl, text[0]);
      MeaningQuiet(tbl, text[1..]);
    }
  }

  lemma {:induction false} ScanQuiet(tbl: map<string, Macro>, open: set<string>, text: seq<Token>, left: nat)
    requires left > 0 && Quiet(tbl, text)
    ensures Scan(tbl, open, text, left) == Done(Copy(text))
  {
    if text != [] {
      assert text[0] in text && forall t :: t in text[1..] ==> t in text;
      assert Next(tbl, open, text, left) == Done(Step(Copy([text[0]]), text[1..]));
      ScanQuiet(tbl, open, text[1..], left);
      assert [text[0]] + text[1..] == text;
      assert Then(Copy([text[0]]), Copy(text[1..])) == Copy(text);
    }
  }

  lemma ExpandQuiet(tbl: map<string, Macro>, open: set<string>, text: seq<Token>, left: nat)
    requires Quiet(tbl, text)
    ensures Expand(tbl, open, text, left) == Done(Copy(text))
  {
    hide Scan;
    if left > 0 {
      ScanQuiet(tbl, open, text, left);
    }
  }

  // ----- the program computes the meaning -----

  // With object-like macros there is no call to be unterminated or to have too many arguments.
  lemma {:induction false} NeverFails(tbl: map<string, Macro>, open: set<string>, text: seq<Token>, left: nat)
    requires ObjectLike(tbl)
    ensures Expand(tbl, open, text, left).Done? && !Expand(tbl, open, text, left).value.loose
    decreases left, 3, 0
  {
    hide Scan, Plain;
    if left > 0 {
      ScanNeverFails(tbl, open, text, left);
      NeverFails(tbl, open, Scan(tbl, open, text, left).value.out, left - 1);
    }
  }

  lemma {:induction false} ScanNeverFails(tbl: map<string, Macro>, open: set<string>, text: seq<Token>, left: nat)
    requires left > 0 && ObjectLike(tbl)
    ensures Scan(tbl, open, text, left).Done? && !Scan(tbl, open, text, left).value.loose
    decreases left, 2, |text|
  {
    hide Expand, Stamp;
    if text != [] {
      var t := text[0];
      if Live(tbl, t) {
        NeverFails(tbl, open + {t.name}, Stamp(tbl[t.name].body, open + {t.name}), left - 1);
      }
      ScanNeverFails(tbl, open, text[1..], left);
    }
  }

  // The text was produced while exactly the macros in open were being expanded.
  predicate Uniform(tbl: map<string, Macro>, open: set<string>, text: seq<Token>) {
    forall t :: t in text ==> Live(tbl, t) ==> t.from == open
  }

  lemma {:induction false} StampUniform(tbl: map<string, Macro>, body: seq<Token>, open: set<string>)
    ensures Uniform(tbl, open, Stamp(body, open))
  {
    if body != [] {
      StampUniform(tbl, body[1..], open);
    }
  }

  // The expansion is cut exactly when the text nests deeper than the levels there are; otherwise it
  // is the meaning of the text.
  lemma {:induction false} ExpandMeans(tbl: map<string, Macro>, open: set<string>, text: seq<Token>, left: nat)
    requires ObjectLike(tbl) && Uniform(tbl, open, text)
    ensures Expand(tbl, open, text, left).Done?
    ensures var r := Expand(tbl, open, text, left).value;
      (r.cut <==> Height(tbl, text) > left) && (!r.cut ==> r.out == Meaning(tbl, text))
    decreases left, 3, 0
  {
    hide Scan, Uniform, Height, Meaning, Plain;
    NeverFails(tbl, open, text, left);
    if left == 0 {
      NoHeight(tbl, text);
    } else {
      ScanMeans(tbl, open, text, left);
      var s := Scan(tbl, open, text, left).value;
      if !s.cut {
        MeaningQuiet(tbl, text);
        ExpandQuiet(tbl, open, s.out, left - 1);
      }
    }
  }

  lemma {:induction false} NoHeight(tbl: map<string, Macro>, text: seq<Token>)
    ensures HasLive(tbl, text) <==> Height(tbl, text) > 0
    ensures !HasLive(tbl, text) ==> Meaning(tbl, text) == text
  {
    hide Live, WordMeaning, WordHeight;
    if text != [] {
      NoHeight(tbl, text[1..]);
      NoWordHeight(tbl, text[0]);
      assert text == [text[0]] + text[1..];
      if HasLive(tbl, text[1..]) {
        var t :| t in text[1..] && Live(tbl, t);
        assert t in text;
      } else if Live(tbl, text[0]) {
        assert text[0] in text;
      }
    }
  }

  lemma NoWordHeight(tbl: map<string, Macro>, t: Token)
    ensures Live(tbl, t) <==> WordHeight(tbl, t) > 0
    ensures !Live(tbl, t) ==> WordMeaning(tbl, t) == [t]
  {
  }

  lemma {:induction false} ScanMeans(tbl: map<string, Macro>, open: set<string>, text: seq<Token>, left: nat)
    requires left > 0 && ObjectLike(tbl) && Uniform(tbl, open, text)
    ensures Scan(tbl, open, text, left).Done?
    ensures var r := Scan(tbl, open, text, left).value;
      (r.cut <==> Height(tbl, text) > left) && (!r.cut ==> r.out == Meaning(tbl, text))
    decreases left, 2, |text|
  {
    hide Next, WordMeaning, WordHeight;
    if text != [] {
      assert text[0] in text && forall t :: t in text[1..] ==> t in text;
      NextMeans(tbl, open, text, left);
      ScanMeans(tbl, open, text[1..], left);
    }
  }

  lemma {:induction false} NextMeans(tbl: map<string, Macro>, open: set<string>, text: seq<Token>, left: nat)
    requires left > 0 && text != [] && ObjectLike(tbl)
    requires Live(tbl, text[0]) ==> text[0].from == open
    ensures Next(tbl, open, text, left).Done? && Next(tbl, open, text, left).value.rest == text[1..]
    ensures var r := Next(tbl, open, text, left).value.run;
      (r.cut <==> WordHeight(tbl, text[0]) > left) && (!r.cut ==> r.out == WordMeaning(tbl, text[0]))
    decreases left, 1, 0
  {
    hide Expand, Stamp, BodyMeaning, BodyHeight;
    var t := text[0];
    if Live(tbl, t) && t.name !in open {
      var inside, body := open + {t.name}, tbl[t.name].body;
      StampUniform(tbl, body, inside);
      ExpandMeans(tbl, inside, Stamp(body, inside), left - 1);
      BodyAsText(tbl, body, inside);
    }
  }

  // ----- how many macros are always few enough -----

  lemma {:induction false} WordHeightBound(tbl: map<string, Macro>, t: Token)
    ensures WordHeight(tbl, t) <= |Room(tbl, t)| + 1
    decreases Room(tbl, t), 1, 0
  {
    if Live(tbl, t) && t.name !in t.from {
      var room, less := tbl.Keys - t.from, tbl.Keys - (t.from + {t.name});
      assert t.name in room && less == room - {t.name};
      BodyHeightBound(tbl, tbl[t.name].body, t.from + {t.name});
    }
  }

  lemma RoomWithin(tbl: map<string, Macro>, t: Token, from: set<string>)
    requires t.Word? ==> t.from == from
    ensures Room(tbl, t) <= tbl.Keys - from && |Room(tbl, t)| <= |tbl.Keys - from|
  {
  }

  lemma {:induction false} BodyHeightBound(tbl: map<string, Macro>, body: seq<Token>, from: set<string>)
    ensures BodyHeight(tbl, body, from) <= |tbl.Keys - from| + 1
    decreases tbl.Keys - from, 2, |body|
  {
    hide WordHeight, Room;
    if body != [] {
      var t := if body[0].Word? then body[0].(from := from) else body[0];
      RoomWithin(tbl, t, from);
      WordHeightBound(tbl, t);
      BodyHeightBound(tbl, body[1..], from);
    }
  }

  // A line of a source file: nothing in it comes from an expansion.
  predicate Written(text: seq<Token>) { forall t :: t in text && t.Word? ==> t.from == {} }

  lemma {:induction false} WrittenBound(tbl: map<string, Macro>, text: seq<Token>)
    requires Written(text)
    ensures Height(tbl, text) <= |tbl| + 1
  {
    hide WordHeight;
    if text != [] {
      assert text[0] in text && forall t :: t in text[1..] ==> t in text;
      WordHeightBound(tbl, text[0]);
      assert text[0].Word? ==> tbl.Keys - text[0].from == tbl.Keys;
      WrittenBound(tbl, text[1..]);
    }
  }

  // Up to 20 object-like macros, every line is expanded to its meaning.
  lemma FewMacros(tbl: map<string, Macro>, text: seq<Token>)
    requires ObjectLike(tbl) && Written(text) && |tbl| <= MAX_DEPTH
    ensures Expand(tbl, {}, text, MAX_DEPTH + 1).Done?
    ensures var r := Expand(tbl, {}, text, MAX_DEPTH + 1).value;
      !r.cut && r.out == Meaning(tbl, text)
  {
    WrittenBound(tbl, text);
    assert Uniform(tbl, {}, text);
    ExpandMeans(tbl, {}, text, MAX_DEPTH + 1);
  }
}
