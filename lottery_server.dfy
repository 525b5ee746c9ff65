/** The draw-state machine of the lottery server (server.py).

    The persisted record holds the fixed prize list, the poem pool and the
    ids of the prizes already handed out.  Every HTTP handler reads the
    record from the data file, projects or mutates it, and (for draw and
    reset) writes it back.  The data file is modelled by `Disk`; the outcome
    of each attempted write is a parameter, so that every failure the
    handlers can meet is one of the inputs.
 */
module LotteryServer {

  // ---------------------------------------------------------------------
  // Data model
  // ---------------------------------------------------------------------

  /** One entry of `prizes`: `{id, name, type}`. */
  datatype Prize = Prize(id: string, name: string, kind: string)

  /** The persisted JSON record. */
  datatype Record = Record(drawnPrizes: seq<string>, prizes: seq<Prize>, poems: seq<string>)

  /** The data file: absent, present but not readable as a record, or holding one. */
  datatype Disk = Missing | Unreadable | Holds(record: Record)

  /** What happens to one attempt to write the data file: it succeeds, opening
      the file fails (nothing is touched), or the dump fails after the file
      was created and truncated (what is left is not readable). */
  datatype WriteOutcome = Written | OpenFailed | DumpFailed

  /** The value a handler produces, or `Crashed` when an exception escapes it
      (Flask then answers with its own error page). */
  datatype Reply<T> = Ok(value: T) | Crashed

  /** The data file after a load, and the record the load produced. */
  datatype Loaded = Loaded(disk: Disk, data: Reply<Record>)

  datatype StatusView = StatusView(drawnCount: nat, totalPrizes: nat, allPrizesDrawn: bool)

  datatype AdminView = AdminView(drawnPrizes: seq<string>, prizes: seq<Prize>, allPrizesDrawn: bool)

  /** The JSON body of a draw reply: `{success, type, result, message}`. */
  datatype DrawResponse = DrawResponse(success: bool, kind: string, result: string, message: string)

  /** The reset reply: HTTP status and the JSON body `{success, message}`. */
  datatype ResetResponse = ResetResponse(status: nat, success: bool, message: string)

  /** What a draw picks from a record. */
  datatype Choice = NextPrize(prize: Prize) | NoPrizeLeft

  // ---------------------------------------------------------------------
  // The default record (init_data)
  // ---------------------------------------------------------------------

  const DefaultPrizes: seq<Prize> := [
    Prize("grand", "大奖", "prize"),
    Prize("second", "二等奖", "prize"),
    Prize("special", "特别奖", "prize")
  ]

  const DefaultPoems: seq<string> := [
    "愿得一心人，白首不相离",
    "山有木兮木有枝，心悦君兮君不知",
    "玲珑骰子安红豆，入骨相思知不知",
    "一日不见兮，思之如狂",
    "执子之手，与子偕老",
    "愿我如星君如月，夜夜流光相皎洁",
    "身无彩凤双飞翼，心有灵犀一点通",
    "在天愿作比翼鸟，在地愿为连理枝",
    "此情可待成追忆，只是当时已惘然",
    "两情若是久长时，又岂在朝朝暮暮",
    "金风玉露一相逢，便胜却人间无数",
    "柔情似水，佳期如梦",
    "君问归期未有期，巴山夜雨涨秋池",
    "曾经沧海难为水，除却巫山不是云",
    "只愿君心似我心，定不负相思意",
    "一生一世一双人，半醉半醒半浮生",
    "情不知所起，一往而深",
    "你是我的独家记忆，我的甜蜜回忆",
    "余生很长，想和你在一起",
    "世间所有的相遇，都是久别重逢"
  ]

  const DefaultRecord: Record := Record([], DefaultPrizes, DefaultPoems)

  const PoemMessage: string := "送你一句情话~"

  /** The congratulation for a prize: the prize name between a fixed
      six-character opening and a closing '！', so it can be read back. */
  function PrizeMessage(name: string): (m: string)
    ensures |m| == |name| + 7
    ensures m[..6] == "恭喜你抽中了" && m[6..|m| - 1] == name && m[|m| - 1] == '！'
  {
    "恭喜你抽中了" + name + "！"
  }

  // ---------------------------------------------------------------------
  // The invariant of the stored record
  // ---------------------------------------------------------------------

  function Ids(ps: seq<Prize>): seq<string>
  {
    seq(|ps|, i requires 0 <= i < |ps| => ps[i].id)
  }

  predicate DistinctIds(ps: seq<Prize>)
  {
    forall i, j :: 0 <= i < j < |ps| ==> ps[i].id != ps[j].id
  }

  predicate NoDuplicates(s: seq<string>)
  {
    forall i, j :: 0 <= i < j < |s| ==> s[i] != s[j]
  }

  /** `drawnPrizes` is a prefix, in list order, of the prize ids, and the
      prize ids are pairwise different. */
  predicate Inv(r: Record)
  {
    DistinctIds(r.prizes) && r.drawnPrizes <= Ids(r.prizes)
  }

  /** Whatever the data file holds satisfies the invariant. */
  predicate DiskInv(d: Disk)
  {
    d.Holds? ==> Inv(d.record)
  }

  lemma {:induction false} DefaultRecordShape()
    ensures DefaultRecord.drawnPrizes == []
    ensures |DefaultRecord.prizes| == 3 && |DefaultRecord.poems| == 20
    ensures Ids(DefaultRecord.prizes) == ["grand", "second", "special"]
    ensures Inv(DefaultRecord)
  {
  }

  lemma {:induction false} InvDrawnDistinct(r: Record)
    requires Inv(r)
    ensures NoDuplicates(r.drawnPrizes)
    ensures |r.drawnPrizes| <= |r.prizes|
  {
    forall i, j | 0 <= i < j < |r.drawnPrizes|
      ensures r.drawnPrizes[i] != r.drawnPrizes[j]
    {
      assert r.drawnPrizes[i] == Ids(r.prizes)[i] == r.prizes[i].id;
      assert r.drawnPrizes[j] == Ids(r.prizes)[j] == r.prizes[j].id;
    }
  }

  // ---------------------------------------------------------------------
  // Read-only projections (get_status, admin_info) and the draw choice
  // ---------------------------------------------------------------------

  /** The body of GET /api/status. */
  function Status(r: Record): (s: StatusView)
    ensures s.drawnCount == |r.drawnPrizes| && s.totalPrizes == |r.prizes|
    ensures s.allPrizesDrawn <==> s.drawnCount >= s.totalPrizes
  {
    StatusView(|r.drawnPrizes|, |r.prizes|, |r.drawnPrizes| >= |r.prizes|)
  }

  /** The body of GET /api/admin/info. */
  function Admin(r: Record): (a: AdminView)
    ensures a.drawnPrizes == r.drawnPrizes && a.prizes == r.prizes
    ensures a.allPrizesDrawn == Status(r).allPrizesDrawn
  {
    AdminView(r.drawnPrizes, r.prizes, |r.drawnPrizes| >= |r.prizes|)
  }

  /** The `available_prizes` comprehension: the prizes, in order, whose id
      has not been drawn. */
  function Available(ps: seq<Prize>, drawn: seq<string>): (a: seq<Prize>)
    ensures |a| <= |ps|
    ensures forall p :: p in a <==> p in ps && p.id !in drawn
  {
    if ps == [] then []
    else
      var rest := Available(ps[1..], drawn);
      assert forall p :: p in ps <==> p == ps[0] || p in ps[1..];
      if ps[0].id in drawn then rest else [ps[0]] + rest
  }

  /** `i` is the position of the first prize whose id has not been drawn. */
  predicate IsFirstUndrawn(ps: seq<Prize>, drawn: seq<string>, i: int)
  {
    0 <= i < |ps| && ps[i].id !in drawn &&
    forall j :: 0 <= j < i ==> ps[j].id in drawn
  }

  lemma {:induction false} AvailableHead(ps: seq<Prize>, drawn: seq<string>)
    requires Available(ps, drawn) != []
    ensures exists i :: IsFirstUndrawn(ps, drawn, i) && Available(ps, drawn)[0] == ps[i]
  {
    if ps[0].id !in drawn {
      assert IsFirstUndrawn(ps, drawn, 0);
    } else {
      AvailableHead(ps[1..], drawn);
      var i :| IsFirstUndrawn(ps[1..], drawn, i) && Available(ps[1..], drawn)[0] == ps[1..][i];
      assert IsFirstUndrawn(ps, drawn, i + 1);
    }
  }

  /** What `draw` hands out: the first remaining prize, or nothing. */
  function Choose(r: Record): (c: Choice)
    ensures c.NextPrize? ==> c.prize in r.prizes && c.prize.id !in r.drawnPrizes
    ensures c.NoPrizeLeft? ==> forall p :: p in r.prizes ==> p.id in r.drawnPrizes
  {
    var avail := Available(r.prizes, r.drawnPrizes);
    if avail == [] then NoPrizeLeft else NextPrize(avail[0])
  }

  /** `draw` finds nothing exactly when every prize id has been drawn, and
      otherwise picks the prize at the first undrawn position. */
  lemma {:induction false} ChooseIsFirstUndrawn(r: Record)
    ensures Choose(r).NoPrizeLeft? <==> forall p :: p in r.prizes ==> p.id in r.drawnPrizes
    ensures Choose(r).NextPrize? ==>
      exists i :: IsFirstUndrawn(r.prizes, r.drawnPrizes, i) && r.prizes[i] == Choose(r).prize
  {
    if Choose(r).NextPrize? {
      AvailableHead(r.prizes, r.drawnPrizes);
    }
  }

  /** The record `draw` persists (or leaves alone when nothing remains). */
  function AfterDraw(r: Record): (r': Record)
    ensures r'.prizes == r.prizes && r'.poems == r.poems
    ensures r.drawnPrizes <= r'.drawnPrizes && |r'.drawnPrizes| <= |r.drawnPrizes| + 1
    ensures r' == r <==> Choose(r).NoPrizeLeft?
  {
    match Choose(r)
    case NextPrize(p) => r.(drawnPrizes := r.drawnPrizes + [p.id])
    case NoPrizeLeft => r
  }

  /** The record `reset` persists. */
  function AfterReset(r: Record): (r': Record)
    ensures r'.prizes == r.prizes && r'.poems == r.poems
    ensures Status(r').drawnCount == 0 && (Status(r').allPrizesDrawn <==> r.prizes == [])
    ensures DistinctIds(r.prizes) ==> Inv(r')
  {
    r.(drawnPrizes := [])
  }

  /** The record after `n` successive draws with every write succeeding. */
  function DrawN(r: Record, n: nat): Record
    decreases n
  {
    if n == 0 then r else DrawN(AfterDraw(r), n - 1)
  }

  // ---------------------------------------------------------------------
  // Properties of the state machine
  // ---------------------------------------------------------------------

  /** Under the invariant the next prize is the one right after the drawn prefix. */
  lemma {:induction false} ChooseUnderInv(r: Record)
    requires Inv(r)
    ensures |r.drawnPrizes| < |r.prizes| ==> Choose(r) == NextPrize(r.prizes[|r.drawnPrizes|])
    ensures |r.drawnPrizes| >= |r.prizes| <==> Choose(r) == NoPrizeLeft
  {
    var k := |r.drawnPrizes|;
    assert forall j :: 0 <= j < |r.prizes| ==> (r.prizes[j].id in r.drawnPrizes <==> j < k) by {
      forall j | 0 <= j < |r.prizes|
        ensures r.prizes[j].id in r.drawnPrizes <==> j < k
      {
        if j < k {
          assert r.drawnPrizes[j] == Ids(r.prizes)[j];
        } else {
          forall m | 0 <= m < k ensures r.drawnPrizes[m] != r.prizes[j].id {
            assert r.drawnPrizes[m] == Ids(r.prizes)[m] == r.prizes[m].id;
          }
        }
      }
    }
    ChooseIsFirstUndrawn(r);
    if k < |r.prizes| {
      assert IsFirstUndrawn(r.prizes, r.drawnPrizes, k);
      assert r.prizes[k] in r.prizes;
      var c := Choose(r);
      assert c.NextPrize?;
      var i :| IsFirstUndrawn(r.prizes, r.drawnPrizes, i) && r.prizes[i] == c.prize;
      assert i == k;
    } else {
      forall p | p in r.prizes ensures p.id in r.drawnPrizes {
        var j :| 0 <= j < |r.prizes| && r.prizes[j] == p;
      }
    }
  }

  /** `allPrizesDrawn` (status and admin view) agrees with "draw finds no prize". */
  lemma {:induction false} AllDrawnIffNoneAvailable(r: Record)
    requires Inv(r)
    ensures Status(r).allPrizesDrawn <==> Choose(r).NoPrizeLeft?
    ensures Admin(r).allPrizesDrawn <==> Available(r.prizes, r.drawnPrizes) == []
  {
    ChooseUnderInv(r);
  }

  /** A successful draw appends exactly the next prize id and keeps prizes and poems. */
  lemma {:induction false} DrawPreservesInv(r: Record)
    requires Inv(r)
    ensures Inv(AfterDraw(r))
    ensures AfterDraw(r).prizes == r.prizes && AfterDraw(r).poems == r.poems
    ensures |r.drawnPrizes| < |r.prizes| ==>
      AfterDraw(r).drawnPrizes == r.drawnPrizes + [r.prizes[|r.drawnPrizes|].id]
    ensures |r.drawnPrizes| >= |r.prizes| ==> AfterDraw(r) == r
  {
    ChooseUnderInv(r);
    var k := |r.drawnPrizes|;
    if k < |r.prizes| {
      var ids := Ids(r.prizes);
      assert r.drawnPrizes + [r.prizes[k].id] == ids[..k + 1] by {
        assert r.drawnPrizes == ids[..k];
        assert ids[..k + 1] == ids[..k] + [ids[k]];
      }
    }
  }

  lemma {:induction false} ResetEstablishesInv(r: Record)
    requires DistinctIds(r.prizes)
    ensures Inv(AfterReset(r))
    ensures AfterReset(r).drawnPrizes == [] && AfterReset(r).prizes == r.prizes && AfterReset(r).poems == r.poems
  {
  }

  /** Prizes come out in list order: `n` draws from an invariant record extend
      the drawn prefix by `n` ids (capped at the number of prizes). */
  lemma {:induction false} DrawsInOrder(r: Record, n: nat)
    requires Inv(r)
    decreases n
    ensures Inv(DrawN(r, n))
    ensures DrawN(r, n).prizes == r.prizes && DrawN(r, n).poems == r.poems
    ensures DrawN(r, n).drawnPrizes ==
      Ids(r.prizes)[..if |r.drawnPrizes| + n <= |r.prizes| then |r.drawnPrizes| + n else |r.prizes|]
  {
    if n == 0 {
      assert r.drawnPrizes == Ids(r.prizes)[..|r.drawnPrizes|];
      InvDrawnDistinct(r);
    } else {
      DrawPreservesInv(r);
      DrawsInOrder(AfterDraw(r), n - 1);
      InvDrawnDistinct(r);
    }
  }

  /** The `n`-th draw (counting from 0) from an invariant record hands out the
      prize at position `|drawnPrizes| + n`. */
  lemma {:induction false} NthDrawInOrder(r: Record, n: nat)
    requires Inv(r) && |r.drawnPrizes| + n < |r.prizes|
    ensures Choose(DrawN(r, n)) == NextPrize(r.prizes[|r.drawnPrizes| + n])
  {
    DrawsInOrder(r, n);
    ChooseUnderInv(DrawN(r, n));
  }

  /** Once nothing remains, draws never change the record. */
  lemma {:induction false} ExhaustedIsStable(r: Record, n: nat)
    requires Choose(r).NoPrizeLeft?
    ensures DrawN(r, n) == r
  {
    if n > 0 {
      ExhaustedIsStable(r, n - 1);
    }
  }

  /** From a record with nothing drawn, the `k`-th draw hands out `prizes[k]`. */
  lemma {:induction false} FreshRecordOrder(r: Record)
    requires Inv(r) && r.drawnPrizes == []
    ensures forall k :: 0 <= k < |r.prizes| ==> Choose(DrawN(r, k)) == NextPrize(r.prizes[k])
  {
    forall k | 0 <= k < |r.prizes| ensures Choose(DrawN(r, k)) == NextPrize(r.prizes[k]) {
      NthDrawInOrder(r, k);
    }
  }

  /** A record whose prizes are all drawn reports so, and draws keep it. */
  lemma {:induction false} ExhaustedRecord(r: Record)
    requires Inv(r) && |r.drawnPrizes| == |r.prizes|
    ensures Status(r).allPrizesDrawn && Choose(r).NoPrizeLeft?
    ensures forall n :: DrawN(r, n) == r
  {
    ChooseUnderInv(r);
    forall n ensures DrawN(r, n) == r {
      ExhaustedIsStable(r, n);
    }
  }

  /** After as many draws as there are prizes, every prize id has been drawn,
      the status says so, and further draws change nothing. */
  lemma {:induction false} FreshRecordExhausted(r: Record)
    requires Inv(r) && r.drawnPrizes == []
    ensures DrawN(r, |r.prizes|).drawnPrizes == Ids(r.prizes)
    ensures Status(DrawN(r, |r.prizes|)).allPrizesDrawn
    ensures Choose(DrawN(r, |r.prizes|)).NoPrizeLeft?
    ensures forall n :: n >= |r.prizes| ==> DrawN(r, n) == DrawN(r, |r.prizes|)
  {
    var m := |r.prizes|;
    var last := DrawN(r, m);
    DrawsInOrder(r, m);
    assert Ids(r.prizes)[..m] == Ids(r.prizes);
    ExhaustedRecord(last);
    forall n | n >= m ensures DrawN(r, n) == last {
      DrawNSplit(r, m, n - m);
    }
  }

  /** From the default record: three draws give the three prizes in order,
      the status then reports every prize drawn, and later draws change nothing. */
  lemma {:induction false} DefaultScenario()
    ensures Choose(DefaultRecord).NextPrize? && Choose(DefaultRecord).prize.name == "大奖"
    ensures Choose(DrawN(DefaultRecord, 1)).NextPrize? && Choose(DrawN(DefaultRecord, 1)).prize.name == "二等奖"
    ensures Choose(DrawN(DefaultRecord, 2)).NextPrize? && Choose(DrawN(DefaultRecord, 2)).prize.name == "特别奖"
    ensures DrawN(DefaultRecord, 3).drawnPrizes == ["grand", "second", "special"]
    ensures Status(DrawN(DefaultRecord, 3)).allPrizesDrawn
    ensures Choose(DrawN(DefaultRecord, 3)).NoPrizeLeft?
    ensures forall n :: n >= 3 ==> DrawN(DefaultRecord, n) == DrawN(DefaultRecord, 3)
  {
    DefaultRecordShape();
    FreshRecordOrder(DefaultRecord);
    FreshRecordExhausted(DefaultRecord);
  }

  lemma {:induction false} DrawNSplit(r: Record, m: nat, n: nat)
    ensures DrawN(r, m + n) == DrawN(DrawN(r, m), n)
    decreases m
  {
    if m > 0 {
      DrawNSplit(AfterDraw(r), m - 1, n);
    }
  }

  // ---------------------------------------------------------------------
  // Loading and storing (init_data, read_data, write_data)
  // ---------------------------------------------------------------------

  function AfterWrite(d: Disk, data: Record, w: WriteOutcome): (d': Disk)
    ensures w == Written ==> d' == Holds(data)
    ensures w != Written ==> !d'.Holds? || d' == d
  {
    match w
    case Written => Holds(data)
    case OpenFailed => d
    case DumpFailed => Unreadable
  }

  /** init_data: writes the default record when the file does not exist; a
      failing write raises. */
  function InitOutcome(d: Disk, w: WriteOutcome): (l: Loaded)
    ensures l.data.Ok? ==> l.data.value == DefaultRecord
    ensures l.data.Crashed? <==> d.Missing? && w != Written
    ensures !d.Missing? ==> l.disk == d
  {
    if d.Missing? then
      Loaded(AfterWrite(d, DefaultRecord, w), if w == Written then Ok(DefaultRecord) else Crashed)
    else
      Loaded(d, Ok(DefaultRecord))
  }

  /** read_data: the stored record when it can be read; otherwise the default
      record, through init_data, which is called a second time (outside the
      try) when its first write raises. */
  function ReadOutcome(d: Disk, w1: WriteOutcome, w2: WriteOutcome): (l: Loaded)
    ensures l.data.Ok? ==> l.data.value == if d.Holds? then d.record else DefaultRecord
    ensures l.data.Crashed? <==> d.Missing? && w1 == OpenFailed && w2 != Written
    ensures !d.Missing? ==> l.disk == d
    ensures d.Missing? && l.data.Ok? ==> l.disk != Missing
  {
    match d
    case Holds(r) => Loaded(d, Ok(r))
    case Unreadable => InitOutcome(d, w1)
    case Missing =>
      var first := InitOutcome(d, w1);
      if first.data.Ok? then first else InitOutcome(first.disk, w2)
  }

  /** Loading never breaks the disk invariant, and what it yields satisfies the invariant. */
  lemma {:induction false} ReadKeepsInv(d: Disk, w1: WriteOutcome, w2: WriteOutcome)
    requires DiskInv(d)
    ensures DiskInv(ReadOutcome(d, w1, w2).disk)
    ensures ReadOutcome(d, w1, w2).data.Ok? ==> Inv(ReadOutcome(d, w1, w2).data.value)
  {
    DefaultRecordShape();
  }

  /** Outside the invariant the status flag and the draw can disagree: a
      drawn list of three unknown ids reports every prize drawn while
      `draw` still hands out the first prize. */
  lemma {:induction false} OutsideInvFlagDisagrees()
    ensures var r := Record(["x", "y", "z"], DefaultPrizes, DefaultPoems);
      !Inv(r) && Status(r).allPrizesDrawn && Choose(r) == NextPrize(DefaultPrizes[0])
  {
    var r := Record(["x", "y", "z"], DefaultPrizes, DefaultPoems);
    assert r.drawnPrizes[0] != Ids(r.prizes)[0];
    assert IsFirstUndrawn(r.prizes, r.drawnPrizes, 0);
    ChooseIsFirstUndrawn(r);
    assert DefaultPrizes[0] in r.prizes;
  }

  /** A draw whose write fails after truncating the file loses every earlier
      draw: the next load falls back to the default record, whose next prize
      is the first one again. */
  lemma {:induction false} DumpFailureRestartsDraws(d: Disk, next: Record, w1: WriteOutcome, w2: WriteOutcome)
    ensures ReadOutcome(AfterWrite(d, next, DumpFailed), w1, w2) == Loaded(Unreadable, Ok(DefaultRecord))
    ensures Choose(DefaultRecord) == NextPrize(DefaultPrizes[0])
  {
    DefaultRecordShape();
    ChooseUnderInv(DefaultRecord);
  }

  // ---------------------------------------------------------------------
  // The mutable state: the data file and the loaded dictionary
  // ---------------------------------------------------------------------

  /** The data file `data.json`. */
  class DataFile {
    var disk: Disk

    constructor (d: Disk)
      ensures disk == d
    {
      disk := d;
    }

    method WriteData(data: Record, w: WriteOutcome) returns (ok: bool)
      modifies this
      ensures ok <==> w == Written
      ensures disk == AfterWrite(old(disk), data, w)
    {
      match w
      case Written => disk := Holds(data); ok := true;
      case OpenFailed => ok := false;
      case DumpFailed => disk := Unreadable; ok := false;
    }

    method InitData(w: WriteOutcome) returns (data: Reply<Record>)
      modifies this
      ensures Loaded(disk, data) == InitOutcome(old(disk), w)
    {
      if disk.Missing? {
        var ok := WriteData(DefaultRecord, w);
        if !ok {
          data := Crashed;
          return;
        }
      }
      data := Ok(DefaultRecord);
    }

    method ReadData(w1: WriteOutcome, w2: WriteOutcome) returns (data: Reply<Record>)
      modifies this
      ensures Loaded(disk, data) == ReadOutcome(old(disk), w1, w2)
    {
      match disk
      case Holds(r) => data := Ok(r);
      case Unreadable => data := InitData(w1);
      case Missing =>
        data := InitData(w1);
        if data.Crashed? {
          data := InitData(w2);
        }
    }
  }

  /** The dictionary a handler loaded and mutates before writing it back. */
  class DrawData {
    var drawnPrizes: seq<string>
    var prizes: seq<Prize>
    var poems: seq<string>

    constructor (r: Record)
      ensures Value() == r
    {
      drawnPrizes, prizes, poems := r.drawnPrizes, r.prizes, r.poems;
    }

    function Value(): Record
      reads this
    {
      Record(drawnPrizes, prizes, poems)
    }

    /** Appends a drawn id to the loaded record, in place. */
    method AppendDrawn(id: string)
      modifies this
      ensures drawnPrizes == old(drawnPrizes) + [id]
      ensures prizes == old(prizes) && poems == old(poems)
    {
      drawnPrizes := drawnPrizes + [id];
    }

    /** Replaces the loaded record's drawn ids by the empty list. */
    method ClearDrawn()
      modifies this
      ensures drawnPrizes == []
      ensures prizes == old(prizes) && poems == old(poems)
    {
      drawnPrizes := [];
    }
  }

  // ---------------------------------------------------------------------
  // The handlers
  // ---------------------------------------------------------------------

  /** GET /api/status */
  method GetStatus(file: DataFile, w1: WriteOutcome, w2: WriteOutcome) returns (reply: Reply<StatusView>)
    modifies file
    ensures var l := ReadOutcome(old(file.disk), w1, w2);
      file.disk == l.disk &&
      reply == match l.data { case Ok(r) => Ok(Status(r)) case Crashed => Crashed }
  {
    var data := file.ReadData(w1, w2);
    match data
    case Crashed => reply := Crashed;
    case Ok(r) => reply := Ok(StatusView(|r.drawnPrizes|, |r.prizes|, |r.drawnPrizes| >= |r.prizes|));
  }

  /** GET /api/admin/info */
  method AdminInfo(file: DataFile, w1: WriteOutcome, w2: WriteOutcome) returns (reply: Reply<AdminView>)
    modifies file
    ensures var l := ReadOutcome(old(file.disk), w1, w2);
      file.disk == l.disk &&
      reply == match l.data { case Ok(r) => Ok(Admin(r)) case Crashed => Crashed }
  {
    var data := file.ReadData(w1, w2);
    match data
    case Crashed => reply := Crashed;
    case Ok(r) => reply := Ok(AdminView(r.drawnPrizes, r.prizes, |r.drawnPrizes| >= |r.prizes|));
  }

  /** POST /api/draw.  `w1`, `w2` are the outcomes of the writes the load may
      attempt, `w3` that of persisting the draw (whose result is ignored). */
  method Draw(file: DataFile, w1: WriteOutcome, w2: WriteOutcome, w3: WriteOutcome)
    returns (reply: Reply<DrawResponse>)
    modifies file
    ensures var l := ReadOutcome(old(file.disk), w1, w2);
      match l.data
      case Crashed => reply == Crashed && file.disk == l.disk
      case Ok(r) =>
        match Choose(r)
        case NextPrize(p) =>
          reply == Ok(DrawResponse(true, "prize", p.name, PrizeMessage(p.name))) &&
          file.disk == AfterWrite(l.disk, AfterDraw(r), w3)
        case NoPrizeLeft =>
          file.disk == l.disk &&
          if r.poems == [] then reply == Crashed
          else reply.Ok? && reply.value.success && reply.value.kind == "poem" &&
               reply.value.result in r.poems && reply.value.message == PoemMessage
    ensures DiskInv(old(file.disk)) ==> DiskInv(file.disk)
  {
    ghost var d0 := file.disk;
    var loaded := file.ReadData(w1, w2);
    if DiskInv(d0) {
      ReadKeepsInv(d0, w1, w2);
    }
    if loaded.Crashed? {
      return Crashed;
    }
    var r := loaded.value;
    var data := new DrawData(r);
    var available := Available(data.prizes, data.drawnPrizes);
    if available != [] {
      var prize := available[0];
      data.AppendDrawn(prize.id);
      var _ := file.WriteData(data.Value(), w3);
      if Inv(r) {
        DrawPreservesInv(r);
      }
      reply := Ok(DrawResponse(true, "prize", prize.name, PrizeMessage(prize.name)));
    } else if data.poems == [] {
      // random.choice raises IndexError on an empty pool
      reply := Crashed;
    } else {
      assert data.poems[0] in data.poems;
      var poem :| poem in data.poems;
      reply := Ok(DrawResponse(true, "poem", poem, PoemMessage));
    }
  }

  /** POST /api/reset.  `w1`, `w2` as for the load, `w3` the write of the
      cleared record, whose outcome decides between 200 and 500. */
  method Reset(file: DataFile, w1: WriteOutcome, w2: WriteOutcome, w3: WriteOutcome)
    returns (reply: Reply<ResetResponse>)
    modifies file
    ensures var l := ReadOutcome(old(file.disk), w1, w2);
      match l.data
      case Crashed => reply == Crashed && file.disk == l.disk
      case Ok(r) =>
        file.disk == AfterWrite(l.disk, AfterReset(r), w3) &&
        reply == Ok(if w3 == Written then ResetResponse(200, true, "抽奖状态已重置")
                    else ResetResponse(500, false, "重置失败"))
    ensures DiskInv(old(file.disk)) ==> DiskInv(file.disk)
  {
    ghost var d0 := file.disk;
    var loaded := file.ReadData(w1, w2);
    if DiskInv(d0) {
      ReadKeepsInv(d0, w1, w2);
    }
    if loaded.Crashed? {
      return Crashed;
    }
    var data := new DrawData(loaded.value);
    data.ClearDrawn();
    var ok := file.WriteData(data.Value(), w3);
    if ok {
      reply := Ok(ResetResponse(200, true, "抽奖状态已重置"));
    } else {
      reply := Ok(ResetResponse(500, false, "重置失败"));
    }
  }

  /** A client of the handlers: a fresh install where every write succeeds. */
  method FreshInstallScenario()
  {
    var file := new DataFile(Missing);
    DefaultScenario();
    var a := Draw(file, Written, Written, Written);
    assert a == Ok(DrawResponse(true, "prize", "大奖", PrizeMessage("大奖")));
    assert file.disk == Holds(DrawN(DefaultRecord, 1));
    var b := Draw(file, Written, Written, Written);
    assert b.Ok? && b.value.result == "二等奖";
    var c := Draw(file, Written, Written, Written);
    assert c.Ok? && c.value.result == "特别奖";
    var s := GetStatus(file, Written, Written);
    assert s == Ok(StatusView(3, 3, true));
    var e := Draw(file, Written, Written, Written);
    assert e.Ok? && e.value.kind == "poem" && e.value.result in DefaultPoems;
    assert file.disk == Holds(DrawN(DefaultRecord, 3));
    var z := Reset(file, Written, Written, Written);
    assert z == Ok(ResetResponse(200, true, "抽奖状态已重置"));
    assert file.disk == Holds(DefaultRecord);
  }

  /** A client of the handlers: the write of the second draw fails after
      truncating the file, so the third draw hands out the first prize again. */
  method LostWriteScenario()
  {
    var file := new DataFile(Missing);
    DefaultScenario();
    var a := Draw(file, Written, Written, Written);
    assert a.Ok? && a.value.result == "大奖";
    var b := Draw(file, Written, Written, DumpFailed);
    assert b.Ok? && b.value.result == "二等奖";
    assert file.disk == Unreadable;
    var c := Draw(file, Written, Written, Written);
    assert c.Ok? && c.value.result == "大奖";
  }
}
