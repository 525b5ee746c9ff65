/** The wheel on the page (public/script.js): the table of slots, and the
    choice of the slot the wheel stops on for a reply from POST /api/draw.
    Only the index computation is modelled; the angle and the animation
    built from it are not.
 */
module Wheel {
  import LotteryServer

  /** One slot of the wheel. */
  datatype WheelOption = WheelOption(text: string, color: string, isPrize: bool)

  /** The `options` table. */
  const Options: seq<WheelOption> := [
    WheelOption("大奖", "#FF6B6B", true),
    WheelOption("谢谢参与", "#4ECDC4", false),
    WheelOption("二等奖", "#FFE66D", true),
    WheelOption("再接再厉", "#95E1D3", false),
    WheelOption("特别奖", "#FF8C94", true),
    WheelOption("下次努力", "#A8E6CF", false),
    WheelOption("继续加油", "#C7CEEA", false),
    WheelOption("差一点点", "#FFDAC1", false)
  ]

  /** The slot used when a prize name matches no slot. */
  const FallbackIndex: nat := 1

  /** The array search by slot text: the first position whose text is
      `text`, or -1 when there is none. */
  function FindIndex(opts: seq<WheelOption>, text: string): (i: int)
    ensures -1 <= i < |opts|
    ensures i == -1 <==> forall j :: 0 <= j < |opts| ==> opts[j].text != text
    ensures i >= 0 ==> opts[i].text == text && forall j :: 0 <= j < i ==> opts[j].text != text
  {
    if opts == [] then -1
    else if opts[0].text == text then 0
    else
      var k := FindIndex(opts[1..], text);
      if k == -1 then -1 else k + 1
  }

  /** Each slot mapped to its own index, or to -1 when it is a prize slot. */
  function MarkNonPrize(opts: seq<WheelOption>): (m: seq<int>)
    ensures |m| == |opts|
    ensures forall i :: 0 <= i < |m| ==> (m[i] == -1 <==> opts[i].isPrize)
    ensures UnmarkedIncreasing(m)
  {
    seq(|opts|, idx requires 0 <= idx < |opts| => if opts[idx].isPrize then -1 else idx)
  }

  /** The entries that are not the -1 mark, in their order. */
  function DropMarks(s: seq<int>): (r: seq<int>)
    ensures forall x :: x in r <==> x in s && x != -1
  {
    if s == [] then []
    else
      var rest := DropMarks(s[1..]);
      assert forall x :: x in s <==> x == s[0] || x in s[1..];
      if s[0] == -1 then rest else [s[0]] + rest
  }

  /** The `nonPrizeIndices` map/filter; `NonPrizeIndicesExact` states what
      it holds. */
  function NonPrizeIndices(opts: seq<WheelOption>): (r: seq<int>)
    ensures forall k :: k in r ==> 0 <= k < |opts|
  {
    DropMarks(MarkNonPrize(opts))
  }

  predicate StrictlyIncreasing(s: seq<int>)
  {
    forall i, j :: 0 <= i < j < |s| ==> s[i] < s[j]
  }

  /** The entries of `s` other than -1 are strictly increasing. */
  predicate UnmarkedIncreasing(s: seq<int>)
  {
    forall i, j :: 0 <= i < j < |s| && s[i] != -1 && s[j] != -1 ==> s[i] < s[j]
  }

  lemma {:induction false} DropMarksIncreasing(s: seq<int>)
    requires UnmarkedIncreasing(s)
    ensures StrictlyIncreasing(DropMarks(s))
  {
    if s != [] {
      var rest := DropMarks(s[1..]);
      assert UnmarkedIncreasing(s[1..]) by {
        forall i, j | 0 <= i < j < |s[1..]| && s[1..][i] != -1 && s[1..][j] != -1
          ensures s[1..][i] < s[1..][j]
        {
          assert s[1..][i] == s[i + 1] && s[1..][j] == s[j + 1];
        }
      }
      DropMarksIncreasing(s[1..]);
      if s[0] != -1 {
        forall x | x in rest ensures s[0] < x {
          var j :| 0 <= j < |s[1..]| && s[1..][j] == x;
          assert s[j + 1] == x;
        }
        var r := [s[0]] + rest;
        forall i, j | 0 <= i < j < |r| ensures r[i] < r[j] {
          if i == 0 {
            assert r[j] == rest[j - 1] && rest[j - 1] in rest;
          } else {
            assert r[i] == rest[i - 1] && r[j] == rest[j - 1];
          }
        }
      }
    }
  }

  /** `nonPrizeIndices` lists, in ascending order, exactly the positions of
      the slots that are not prizes. */
  lemma {:induction false} NonPrizeIndicesExact(opts: seq<WheelOption>)
    ensures forall k :: k in NonPrizeIndices(opts) <==> 0 <= k < |opts| && !opts[k].isPrize
    ensures StrictlyIncreasing(NonPrizeIndices(opts))
  {
    var marks := MarkNonPrize(opts);
    forall k ensures k in NonPrizeIndices(opts) <==> 0 <= k < |opts| && !opts[k].isPrize {
      if 0 <= k < |opts| && !opts[k].isPrize {
        assert marks[k] == k;
      }
    }
    DropMarksIncreasing(marks);
  }

  lemma {:induction false} OptionsMarks()
    ensures MarkNonPrize(Options) == [-1, 1, -1, 3, -1, 5, 6, 7]
  {
    var marks := MarkNonPrize(Options);
    assert |marks| == 8;
    assert marks[0] == -1 && marks[1] == 1 && marks[2] == -1 && marks[3] == 3;
    assert marks[4] == -1 && marks[5] == 5 && marks[6] == 6 && marks[7] == 7;
  }

  lemma {:induction false} OptionsNonPrizeIndices()
    ensures NonPrizeIndices(Options) == [1, 3, 5, 6, 7]
  {
    OptionsMarks();
    var marks: seq<int> := [-1, 1, -1, 3, -1, 5, 6, 7];
    assert DropMarks(marks[7..]) == [7];
    assert DropMarks(marks[6..]) == [6, 7];
    assert DropMarks(marks[5..]) == [5, 6, 7];
    assert DropMarks(marks[4..]) == [5, 6, 7];
    assert DropMarks(marks[3..]) == [3, 5, 6, 7];
    assert DropMarks(marks[2..]) == [3, 5, 6, 7];
    assert DropMarks(marks[1..]) == [1, 3, 5, 6, 7];
  }

  /** `targetIndex` before the fallback: for a prize the matching slot (or
      -1), otherwise the non-prize slot at position `pick`, the random
      position the page draws below the list's length. */
  function RawTarget(kind: string, result: string, pick: nat): (t: int)
    requires kind != "prize" ==> pick < |NonPrizeIndices(Options)|
    ensures kind == "prize" ==> t == FindIndex(Options, result)
    ensures kind != "prize" ==> t in NonPrizeIndices(Options)
  {
    if kind == "prize" then FindIndex(Options, result)
    else NonPrizeIndices(Options)[pick]
  }

  /** The slot the wheel is turned to, after replacing -1 by the fallback. */
  function TargetIndex(kind: string, result: string, pick: nat): (t: nat)
    requires kind != "prize" ==> pick < |NonPrizeIndices(Options)|
    ensures t < |Options|
    ensures kind == "prize" && (exists i :: 0 <= i < |Options| && Options[i].text == result) ==>
      Options[t].text == result && forall j :: 0 <= j < t ==> Options[j].text != result
    ensures kind == "prize" && (forall i :: 0 <= i < |Options| ==> Options[i].text != result) ==>
      t == FallbackIndex
    ensures kind != "prize" ==> t in NonPrizeIndices(Options) && !Options[t].isPrize
  {
    OptionsNonPrizeIndices();
    var raw := RawTarget(kind, result, pick);
    if raw == -1 then FallbackIndex else raw
  }

  /** The fallback slot is a non-prize slot, "谢谢参与". */
  lemma {:induction false} FallbackIsNonPrize()
    ensures FallbackIndex < |Options|
    ensures !Options[FallbackIndex].isPrize && Options[FallbackIndex].text == "谢谢参与"
    ensures FallbackIndex in NonPrizeIndices(Options)
  {
    OptionsNonPrizeIndices();
  }

  /** `findIndex` stops at the first slot bearing the text. */
  lemma {:induction false} FirstSlotWithText(text: string, k: nat)
    requires k < |Options| && Options[k].text == text
    requires forall j :: 0 <= j < k ==> Options[j].text != text
    ensures FindIndex(Options, text) == k
  {
  }

  /** Every prize name the server hands out from its default record labels
      a prize slot, at positions 0, 2 and 4, so no prize reply uses the fallback. */
  lemma {:induction false} ServerPrizesHaveSlots()
    ensures FindIndex(Options, "大奖") == 0 && Options[0].isPrize
    ensures FindIndex(Options, "二等奖") == 2 && Options[2].isPrize
    ensures FindIndex(Options, "特别奖") == 4 && Options[4].isPrize
  {
    FirstSlotWithText("大奖", 0);
    FirstSlotWithText("二等奖", 2);
    FirstSlotWithText("特别奖", 4);
  }

  /** A prize name that `findIndex` finds is where the wheel turns to. */
  lemma {:induction false} PrizeTargetIsFound(name: string)
    requires FindIndex(Options, name) >= 0
    ensures TargetIndex("prize", name, 0) == FindIndex(Options, name)
  {
  }

  /** End to end: the prize handed out by the `n`-th draw from the default
      record turns the wheel to the prize slot labelled with its name. */
  lemma {:induction false} DrawnPrizeLandsOnItsSlot(n: nat)
    requires n < |LotteryServer.DefaultPrizes|
    ensures var c := LotteryServer.Choose(LotteryServer.DrawN(LotteryServer.DefaultRecord, n));
      c.NextPrize? &&
      var t := TargetIndex("prize", c.prize.name, 0);
      t == 2 * n && Options[t].isPrize && Options[t].text == c.prize.name
  {
    LotteryServer.DefaultRecordShape();
    LotteryServer.NthDrawInOrder(LotteryServer.DefaultRecord, n);
    var name := LotteryServer.DefaultPrizes[n].name;
    assert name == ["大奖", "二等奖", "特别奖"][n];
    ServerPrizesHaveSlots();
    PrizeTargetIsFound(name);
  }
}
