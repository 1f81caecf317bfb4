/** The manufacturer lister (`process_vehicle_types` in both copies of
    fipe_manufacturer_loader.py): for each vehicle type in the order truck, car,
    motorcycle it asks the catalog for the brands and emits one message per usable
    brand, either to the output queue or to a local list. The two copies differ
    only in the switch that caps each type to three brands. */
module ManufacturerLister {
  import opened Wrappers
  import opened Json
  import opened ApiService

  /** The copy of the lister: code_lambdas caps on `TEST == 'true'`, src on
      `STAGE == 'dev'`. */
  datatype Variant = CodeLambdas | Src

  /** The environment variables the lister reads; "" stands for an unset one. */
  datatype Env = Env(outputUrl: string, stage: string, test: string)

  predicate Capped(variant: Variant, env: Env) {
    match variant
    case CodeLambdas => env.test == "true"
    case Src => env.stage == "dev"
  }

  /** 3: truck, 1: car, 2: motorcycle. */
  const VehicleTypes: seq<int> := [3, 1, 2]

  /** Brands per type emitted when capped. */
  const DevCap: nat := 3

  /** The message sent for one brand. */
  datatype BrandMessage = BrandMessage(
    referenceTableCode: Value,
    referenceMonth: string,
    brandCode: string,
    brandName: string,
    vehicleType: int)

  /** The catalog's answer to `get_brands(vehicle_type)`. */
  datatype BrandsReply = Brands(items: seq<Object>) | BrandsRaised

  /** What the run has done: messages sent to the queue, messages kept locally,
      `send_message` calls made (failed ones included) and the pauses requested. */
  datatype Run = Run(sent: seq<BrandMessage>, local: seq<BrandMessage>, sendCalls: nat, delays: seq<real>)

  const NoRun: Run := Run([], [], 0, [])

  /** The returned dictionary: status code and `message_count`. */
  datatype Outcome = Outcome(statusCode: int, messageCount: Option<nat>)

  /** Pause after each emitted brand, in seconds. */
  const BrandDelay: real := 1.0

  /** `str(brand.get('Value'))` and `str(brand.get('Label'))` */
  function BrandCode(b: Object): string { PyStr(Get(b, "Value", Null)) }
  function BrandName(b: Object): string { PyStr(Get(b, "Label", Null)) }

  /** The message for the brand at 1-based position `index`, or None when the
      cap or an empty code or name skips it. */
  function MessageFor(client: Client, vt: int, index: nat, b: Object, capped: bool): (m: Option<BrandMessage>)
    ensures m.Some? <==> !(capped && index > DevCap) && BrandCode(b) != "" && BrandName(b) != ""
    ensures m.Some? ==> m.value.referenceTableCode == client.referenceTableCode
                        && m.value.referenceMonth == client.referenceMonthName
                        && m.value.vehicleType == vt
                        && m.value.brandCode == BrandCode(b) && m.value.brandName == BrandName(b)
  {
    if capped && index > DevCap then None
    else if BrandCode(b) == "" || BrandName(b) == "" then None
    else Some(BrandMessage(client.referenceTableCode, client.referenceMonthName, BrandCode(b), BrandName(b), vt))
  }

  /** The messages a type's brands call for, from position `i` on, in order. */
  function Emitted(client: Client, vt: int, brands: seq<Object>, i: nat, capped: bool): seq<BrandMessage>
    decreases |brands| - i
  {
    if i >= |brands| then []
    else
      var rest := Emitted(client, vt, brands, i + 1, capped);
      match MessageFor(client, vt, i + 1, brands[i], capped)
      case None => rest
      case Some(m) => [m] + rest
  }

  /** The brand loop of one type from position `i` on, as it runs: a local message
      is appended; a sent one costs a `send_message` call, and a call that raises
      ends the type. */
  function BrandsFrom(st: Run, client: Client, vt: int, brands: seq<Object>, i: nat,
                      capped: bool, isLocal: bool, sendOk: nat -> bool): Run
    decreases |brands| - i
  {
    if i >= |brands| then st
    else
      match MessageFor(client, vt, i + 1, brands[i], capped)
      case None => BrandsFrom(st, client, vt, brands, i + 1, capped, isLocal, sendOk)
      case Some(m) =>
        if isLocal then
          BrandsFrom(st.(local := st.local + [m], delays := st.delays + [BrandDelay]),
                     client, vt, brands, i + 1, capped, isLocal, sendOk)
        else if sendOk(st.sendCalls) then
          BrandsFrom(st.(sent := st.sent + [m], sendCalls := st.sendCalls + 1, delays := st.delays + [BrandDelay]),
                     client, vt, brands, i + 1, capped, isLocal, sendOk)
        else
          st.(sendCalls := st.sendCalls + 1)
  }

  /** One vehicle type: a failing `get_brands` or an empty list leaves the run as it is. */
  function TypeStep(st: Run, client: Client, vt: int, reply: BrandsReply,
                    capped: bool, isLocal: bool, sendOk: nat -> bool): Run
  {
    match reply
    case BrandsRaised => st
    case Brands(items) =>
      if items == [] then st else BrandsFrom(st, client, vt, items, 0, capped, isLocal, sendOk)
  }

  /** The loop over the vehicle types from position `j` on. */
  function TypesFrom(st: Run, client: Client, j: nat, getBrands: int -> BrandsReply,
                     capped: bool, isLocal: bool, sendOk: nat -> bool): Run
    decreases |VehicleTypes| - j
  {
    if j >= |VehicleTypes| then st
    else
      TypesFrom(TypeStep(st, client, VehicleTypes[j], getBrands(VehicleTypes[j]), capped, isLocal, sendOk),
                client, j + 1, getBrands, capped, isLocal, sendOk)
  }

  /** `process_vehicle_types(is_local)`. The constructed client (or the exception
      its construction raised) is an input; `get_brands` answers per vehicle type
      and `sendOk(k)` says whether the k-th `send_message` call returns. */
  method ProcessVehicleTypes(variant: Variant, env: Env, isLocal: bool, client: Result<Client>,
                             getBrands: int -> BrandsReply, sendOk: nat -> bool)
    returns (r: Result<Outcome>, run: Run)
    ensures client.Raised? ==> r == Raised(client.exc) && run == NoRun
    ensures client.Ok? && env.outputUrl == "" && !isLocal ==> r == Ok(Outcome(500, None)) && run == NoRun
    ensures client.Ok? && (env.outputUrl != "" || isLocal) ==>
              run == TypesFrom(NoRun, client.value, 0, getBrands, Capped(variant, env), isLocal, sendOk)
              && r == Ok(Outcome(200, if isLocal then Some(|run.local|) else None))
  {
    run := NoRun;
    if client.Raised? {
      return Raised(client.exc), run;
    }
    var api := client.value;
    if env.outputUrl == "" && !isLocal {
      return Ok(Outcome(500, None)), run;
    }
    var capped := Capped(variant, env);
    for j := 0 to |VehicleTypes|
      invariant TypesFrom(run, api, j, getBrands, capped, isLocal, sendOk)
                == TypesFrom(NoRun, api, 0, getBrands, capped, isLocal, sendOk)
    {
      var vt := VehicleTypes[j];
      var reply := getBrands(vt);
      if reply.BrandsRaised? || reply.items == [] {
        continue;
      }
      run := ProcessBrands(run, api, vt, reply.items, capped, isLocal, sendOk);
    }
    r := Ok(Outcome(200, if isLocal then Some(|run.local|) else None));
  }

  /** The brand loop of `process_vehicle_types` for one vehicle type: a message per
      brand with a code and a name (the first three only when capped), kept locally
      or sent; a `send_message` call that raises ends the type. */
  method ProcessBrands(run0: Run, api: Client, vt: int, brands: seq<Object>, capped: bool, isLocal: bool,
                       sendOk: nat -> bool)
    returns (run: Run)
    ensures run == BrandsFrom(run0, api, vt, brands, 0, capped, isLocal, sendOk)
  {
    run := run0;
    var i := 0;
    while i < |brands|
      invariant 0 <= i <= |brands|
      invariant BrandsFrom(run, api, vt, brands, i, capped, isLocal, sendOk)
                == BrandsFrom(run0, api, vt, brands, 0, capped, isLocal, sendOk)
      decreases |brands| - i
    {
      var index := i + 1;
      var brand := brands[i];
      i := i + 1;
      if capped && index > DevCap {
        continue;
      }
      var brandCode := PyStr(Get(brand, "Value", Null));
      var brandName := PyStr(Get(brand, "Label", Null));
      if brandCode == "" || brandName == "" {
        continue;
      }
      var message := BrandMessage(api.referenceTableCode, api.referenceMonthName, brandCode, brandName, vt);
      if isLocal {
        run := run.(local := run.local + [message]);
      } else {
        var ok := sendOk(run.sendCalls);
        run := run.(sendCalls := run.sendCalls + 1);
        if !ok {
          return;
        }
        run := run.(sent := run.sent + [message]);
      }
      run := run.(delays := run.delays + [BrandDelay]);
    }
  }

  // ---------------------------------------------------------------------------
  // What the run emits

  /** `n` pauses of one second. */
  function Pauses(n: nat): (d: seq<real>)
    ensures |d| == n && forall k :: 0 <= k < n ==> d[k] == BrandDelay
  {
    seq(n, _ => BrandDelay)
  }

  /** Sending `msgs` one by one from call number `from` until a call raises: the
      messages that went out, and the calls made (the raising one included). */
  function SendUntilFailure(msgs: seq<BrandMessage>, sendOk: nat -> bool, from: nat): (seq<BrandMessage>, nat)
    decreases |msgs|
  {
    if msgs == [] then ([], 0)
    else if sendOk(from) then
      var rest := SendUntilFailure(msgs[1..], sendOk, from + 1);
      ([msgs[0]] + rest.0, rest.1 + 1)
    else ([], 1)
  }

  /** What goes out is a prefix of what was meant to; all of it when no call raises. */
  lemma {:induction false} SendUntilFailurePrefix(msgs: seq<BrandMessage>, sendOk: nat -> bool, from: nat)
    ensures SendUntilFailure(msgs, sendOk, from).0 <= msgs
    ensures (forall k :: from <= k < from + |msgs| ==> sendOk(k)) ==> SendUntilFailure(msgs, sendOk, from).0 == msgs
    decreases |msgs|
  {
    if msgs != [] && sendOk(from) {
      SendUntilFailurePrefix(msgs[1..], sendOk, from + 1);
      assert [msgs[0]] + msgs[1..] == msgs;
    }
  }

  /** With the cap on, a type yields at most three messages, all from its first
      three brands. */
  lemma {:induction false} EmittedCapped(client: Client, vt: int, brands: seq<Object>, i: nat)
    ensures |Emitted(client, vt, brands, i, true)| <= if i >= DevCap then 0 else DevCap - i
    decreases |brands| - i
  {
    if i < |brands| {
      EmittedCapped(client, vt, brands, i + 1);
    }
  }

  /** A message is emitted exactly when some brand calls for it. */
  lemma {:induction false} EmittedMembers(client: Client, vt: int, brands: seq<Object>, i: nat, capped: bool, m: BrandMessage)
    ensures m in Emitted(client, vt, brands, i, capped) <==>
              exists k :: i <= k < |brands| && MessageFor(client, vt, k + 1, brands[k], capped) == Some(m)
    decreases |brands| - i
  {
    if i < |brands| {
      EmittedMembers(client, vt, brands, i + 1, capped, m);
    }
  }

  /** In local mode a type's brand loop appends exactly the messages its brands
      call for, each followed by a pause, and sends nothing. */
  lemma {:induction false} LocalBrandsAppendEmitted(st: Run, client: Client, vt: int, brands: seq<Object>, i: nat,
                                                    capped: bool, sendOk: nat -> bool)
    ensures var e := Emitted(client, vt, brands, i, capped);
            BrandsFrom(st, client, vt, brands, i, capped, true, sendOk)
            == st.(local := st.local + e, delays := st.delays + Pauses(|e|))
    decreases |brands| - i
  {
    if i < |brands| {
      var e := Emitted(client, vt, brands, i, capped);
      match MessageFor(client, vt, i + 1, brands[i], capped)
      case None =>
        LocalBrandsAppendEmitted(st, client, vt, brands, i + 1, capped, sendOk);
      case Some(m) =>
        var st' := st.(local := st.local + [m], delays := st.delays + [BrandDelay]);
        LocalBrandsAppendEmitted(st', client, vt, brands, i + 1, capped, sendOk);
        assert st.local + [m] + e[1..] == st.local + e;
        assert st.delays + [BrandDelay] + Pauses(|e| - 1) == st.delays + Pauses(|e|);
    } else {
      assert st.local + [] == st.local && st.delays + [] == st.delays;
    }
  }

  /** Outside local mode a type's brand loop sends the messages its brands call
      for, in order, until a send raises; nothing is kept locally. */
  lemma {:induction false} QueueBrandsSendEmitted(st: Run, client: Client, vt: int, brands: seq<Object>, i: nat,
                                                  capped: bool, sendOk: nat -> bool)
    ensures QueueInvariant(st, client, vt, brands, i, capped, sendOk)
    decreases |brands| - i
  {
    if i < |brands| {
      match MessageFor(client, vt, i + 1, brands[i], capped)
      case None =>
        QueueBrandsSendEmitted(st, client, vt, brands, i + 1, capped, sendOk);
      case Some(m) =>
        if sendOk(st.sendCalls) {
          var st' := st.(sent := st.sent + [m], sendCalls := st.sendCalls + 1, delays := st.delays + [BrandDelay]);
          QueueBrandsSendEmitted(st', client, vt, brands, i + 1, capped, sendOk);
          QueueSentStep(st, client, vt, brands, i, capped, sendOk, m);
        } else {
          assert st.sent + [] == st.sent && st.delays + [] == st.delays;
        }
    } else {
      assert st.sent + [] == st.sent && st.delays + [] == st.delays;
    }
  }

  /** The brand loop from position `i` sends what `SendUntilFailure` says. */
  ghost predicate QueueInvariant(st: Run, client: Client, vt: int, brands: seq<Object>, i: nat,
                                 capped: bool, sendOk: nat -> bool)
  {
    var s := SendUntilFailure(Emitted(client, vt, brands, i, capped), sendOk, st.sendCalls);
    var r := BrandsFrom(st, client, vt, brands, i, capped, false, sendOk);
    r.sent == st.sent + s.0 && r.sendCalls == st.sendCalls + s.1
    && r.delays == st.delays + Pauses(|s.0|) && r.local == st.local
  }

  /** One successful send carries the invariant back over its brand. */
  lemma QueueSentStep(st: Run, client: Client, vt: int, brands: seq<Object>, i: nat,
                      capped: bool, sendOk: nat -> bool, m: BrandMessage)
    requires i < |brands| && MessageFor(client, vt, i + 1, brands[i], capped) == Some(m) && sendOk(st.sendCalls)
    requires QueueInvariant(st.(sent := st.sent + [m], sendCalls := st.sendCalls + 1, delays := st.delays + [BrandDelay]),
                            client, vt, brands, i + 1, capped, sendOk)
    ensures QueueInvariant(st, client, vt, brands, i, capped, sendOk)
  {
    var st' := st.(sent := st.sent + [m], sendCalls := st.sendCalls + 1, delays := st.delays + [BrandDelay]);
    var e := Emitted(client, vt, brands, i, capped);
    var rest := Emitted(client, vt, brands, i + 1, capped);
    assert e == [m] + rest;
    assert BrandsFrom(st, client, vt, brands, i, capped, false, sendOk)
           == BrandsFrom(st', client, vt, brands, i + 1, capped, false, sendOk);
    var s' := SendUntilFailure(rest, sendOk, st.sendCalls + 1);
    assert e[1..] == rest;
    assert SendUntilFailure(e, sendOk, st.sendCalls) == ([m] + s'.0, s'.1 + 1);
    assert st.sent + [m] + s'.0 == st.sent + ([m] + s'.0);
    assert st.delays + [BrandDelay] + Pauses(|s'.0|) == st.delays + Pauses(|s'.0| + 1);
  }

  /** The messages the brands of type `vt` call for, when `get_brands` answers. */
  function Expected(client: Client, vt: int, getBrands: int -> BrandsReply, capped: bool): seq<BrandMessage> {
    match getBrands(vt)
    case BrandsRaised => []
    case Brands(items) => Emitted(client, vt, items, 0, capped)
  }

  /** In local mode the run collects, type by type in the order 3, 1, 2, exactly
      the messages the brands call for: a type whose `get_brands` raises contributes
      nothing and the others are unaffected; nothing is sent and the reported
      `message_count` is their number. */
  lemma LocalModeCollectsEveryType(client: Client, getBrands: int -> BrandsReply, capped: bool, sendOk: nat -> bool)
    ensures var run := TypesFrom(NoRun, client, 0, getBrands, capped, true, sendOk);
            run.local == Expected(client, 3, getBrands, capped) + Expected(client, 1, getBrands, capped)
                         + Expected(client, 2, getBrands, capped)
            && run.sent == [] && run.sendCalls == 0
  {
    var st0 := NoRun;
    var st1 := TypeStep(st0, client, 3, getBrands(3), capped, true, sendOk);
    var st2 := TypeStep(st1, client, 1, getBrands(1), capped, true, sendOk);
    var st3 := TypeStep(st2, client, 2, getBrands(2), capped, true, sendOk);
    TypesFromUnrolled(client, getBrands, capped, true, sendOk);
    LocalTypeStep(st0, client, 3, getBrands, capped, sendOk);
    LocalTypeStep(st1, client, 1, getBrands, capped, sendOk);
    LocalTypeStep(st2, client, 2, getBrands, capped, sendOk);
  }

  lemma LocalTypeStep(st: Run, client: Client, vt: int, getBrands: int -> BrandsReply, capped: bool, sendOk: nat -> bool)
    ensures var st' := TypeStep(st, client, vt, getBrands(vt), capped, true, sendOk);
            st'.local == st.local + Expected(client, vt, getBrands, capped)
            && st'.sent == st.sent && st'.sendCalls == st.sendCalls
  {
    match getBrands(vt)
    case BrandsRaised =>
      assert st.local + [] == st.local;
    case Brands(items) =>
      LocalBrandsAppendEmitted(st, client, vt, items, 0, capped, sendOk);
      if items == [] { assert st.local + [] == st.local; }
  }

  /** Outside local mode each type sends a prefix of the messages its brands call
      for, counting its calls on from where the previous type stopped: a raising
      send ends only its own type, and the later types still send theirs. */
  lemma QueueModeSendsEachType(client: Client, getBrands: int -> BrandsReply, capped: bool, sendOk: nat -> bool)
    ensures var run := TypesFrom(NoRun, client, 0, getBrands, capped, false, sendOk);
            var s3 := SendUntilFailure(Expected(client, 3, getBrands, capped), sendOk, 0);
            var s1 := SendUntilFailure(Expected(client, 1, getBrands, capped), sendOk, s3.1);
            var s2 := SendUntilFailure(Expected(client, 2, getBrands, capped), sendOk, s3.1 + s1.1);
            run.sent == s3.0 + s1.0 + s2.0 && run.sendCalls == s3.1 + s1.1 + s2.1 && run.local == []
  {
    var st0 := NoRun;
    var st1 := TypeStep(st0, client, 3, getBrands(3), capped, false, sendOk);
    var st2 := TypeStep(st1, client, 1, getBrands(1), capped, false, sendOk);
    var st3 := TypeStep(st2, client, 2, getBrands(2), capped, false, sendOk);
    TypesFromUnrolled(client, getBrands, capped, false, sendOk);
    QueueTypeStep(st0, client, 3, getBrands, capped, sendOk);
    QueueTypeStep(st1, client, 1, getBrands, capped, sendOk);
    QueueTypeStep(st2, client, 2, getBrands, capped, sendOk);
    var s3 := SendUntilFailure(Expected(client, 3, getBrands, capped), sendOk, 0);
    var s1 := SendUntilFailure(Expected(client, 1, getBrands, capped), sendOk, s3.1);
    var s2 := SendUntilFailure(Expected(client, 2, getBrands, capped), sendOk, s3.1 + s1.1);
    assert st1.sent == s3.0 && st1.sendCalls == s3.1;
    assert st2.sent == s3.0 + s1.0 && st2.sendCalls == s3.1 + s1.1;
  }

  /** The type loop is three type steps, in the order 3, 1, 2. */
  lemma TypesFromUnrolled(client: Client, getBrands: int -> BrandsReply, capped: bool, isLocal: bool, sendOk: nat -> bool)
    ensures TypesFrom(NoRun, client, 0, getBrands, capped, isLocal, sendOk)
            == TypeStep(TypeStep(TypeStep(NoRun, client, 3, getBrands(3), capped, isLocal, sendOk),
                                 client, 1, getBrands(1), capped, isLocal, sendOk),
                        client, 2, getBrands(2), capped, isLocal, sendOk)
  {
    var st1 := TypeStep(NoRun, client, 3, getBrands(3), capped, isLocal, sendOk);
    var st2 := TypeStep(st1, client, 1, getBrands(1), capped, isLocal, sendOk);
    var st3 := TypeStep(st2, client, 2, getBrands(2), capped, isLocal, sendOk);
    assert TypesFrom(st3, client, 3, getBrands, capped, isLocal, sendOk) == st3;
    assert TypesFrom(st2, client, 2, getBrands, capped, isLocal, sendOk) == st3;
    assert TypesFrom(st1, client, 1, getBrands, capped, isLocal, sendOk) == st3;
  }

  lemma QueueTypeStep(st: Run, client: Client, vt: int, getBrands: int -> BrandsReply, capped: bool, sendOk: nat -> bool)
    ensures var st' := TypeStep(st, client, vt, getBrands(vt), capped, false, sendOk);
            var s := SendUntilFailure(Expected(client, vt, getBrands, capped), sendOk, st.sendCalls);
            st'.sent == st.sent + s.0 && st'.sendCalls == st.sendCalls + s.1 && st'.local == st.local
  {
    match getBrands(vt)
    case BrandsRaised =>
      assert st.sent + [] == st.sent;
    case Brands(items) =>
      QueueBrandsSendEmitted(st, client, vt, items, 0, capped, sendOk);
      assert QueueInvariant(st, client, vt, items, 0, capped, sendOk);
      if items == [] { assert st.sent + [] == st.sent; }
  }

  /** Every message carries the one client's reference table and month, and a
      vehicle type of the fixed list. */
  lemma MessagesCarryReference(client: Client, getBrands: int -> BrandsReply, capped: bool, isLocal: bool,
                               sendOk: nat -> bool, m: BrandMessage)
    requires var run := TypesFrom(NoRun, client, 0, getBrands, capped, isLocal, sendOk);
             m in run.sent || m in run.local
    ensures m.referenceTableCode == client.referenceTableCode
    ensures m.referenceMonth == client.referenceMonthName
    ensures m.vehicleType in VehicleTypes
  {
    var e3, e1, e2 := Expected(client, 3, getBrands, capped), Expected(client, 1, getBrands, capped),
                      Expected(client, 2, getBrands, capped);
    var vt: int;
    if isLocal {
      LocalModeCollectsEveryType(client, getBrands, capped, sendOk);
      vt := if m in e3 then 3 else if m in e1 then 1 else 2;
    } else {
      QueueModeSendsEachType(client, getBrands, capped, sendOk);
      var s3 := SendUntilFailure(e3, sendOk, 0);
      var s1 := SendUntilFailure(e1, sendOk, s3.1);
      var s2 := SendUntilFailure(e2, sendOk, s3.1 + s1.1);
      SendUntilFailurePrefix(e3, sendOk, 0);
      SendUntilFailurePrefix(e1, sendOk, s3.1);
      SendUntilFailurePrefix(e2, sendOk, s3.1 + s1.1);
      assert m in s3.0 || m in s1.0 || m in s2.0;
      vt := if m in s3.0 then 3 else if m in s1.0 then 1 else 2;
      assert m in Expected(client, vt, getBrands, capped);
    }
    assert m in Expected(client, vt, getBrands, capped);
    assert getBrands(vt).Brands?;
    EmittedMembers(client, vt, getBrands(vt).items, 0, capped, m);
  }

  /** With the cap on, no type yields more than three messages. */
  lemma CappedRunEmitsAtMostThreePerType(client: Client, getBrands: int -> BrandsReply, vt: int)
    ensures |Expected(client, vt, getBrands, true)| <= DevCap
  {
    if getBrands(vt).Brands? {
      EmittedCapped(client, vt, getBrands(vt).items, 0);
    }
  }

  /** A brand without a `Value` is not skipped: its code prints as "None". */
  lemma MissingValueIsSentAsNone(client: Client, vt: int, index: nat, b: Object, capped: bool)
    requires "Value" !in b && "Label" in b && b["Label"].Str? && b["Label"].s != ""
    requires !(capped && index > DevCap)
    ensures MessageFor(client, vt, index, b, capped).Some?
    ensures MessageFor(client, vt, index, b, capped).value.brandCode == "None"
  {
  }
}
