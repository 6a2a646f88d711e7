/** Product units and their serial numbers (store/unit/models.py).

    A serial is "RF-" + product id + "-" + ddmmHHMMSS + "-" + microseconds
    padded to six digits. The two clock reads the source makes (one for the
    stamp, one for the microseconds) arrive here as a `Reading`; the set of
    serials already stored stands in for the database lookup. */
module Units {
  import opened Wrappers
  import opened Decimal

  /** One reading of the wall clock: day of month, month, hour, minute,
      second (from the first read) and microsecond (from the second). */
  datatype Reading = Reading(day: nat, month: nat, hour: nat, minute: nat, second: nat, micro: nat)

  predicate ValidReading(r: Reading) {
    1 <= r.day <= 31 && 1 <= r.month <= 12 && r.hour < 24 && r.minute < 60
    && r.second < 60 && r.micro < 1000000
  }

  /** The values a clock can actually return. */
  type ClockReading = r: Reading | ValidReading(r) witness Reading(1, 1, 0, 0, 0, 0)

  /** The column's `max_length`. */
  const SerialMaxLength: nat := 50

  /** `strftime("%d%m%H%M%S")`. */
  function Stamp(r: ClockReading): (s: string)
    ensures |s| == 10 && AllDigits(s)
  {
    PadLeftWidth(r.day, 2);
    PadLeftWidth(r.month, 2);
    PadLeftWidth(r.hour, 2);
    PadLeftWidth(r.minute, 2);
    PadLeftWidth(r.second, 2);
    PadLeft(r.day, 2) + PadLeft(r.month, 2) + PadLeft(r.hour, 2) + PadLeft(r.minute, 2)
      + PadLeft(r.second, 2)
  }

  /** `f"{micro:06d}"`. */
  function MicroText(r: ClockReading): (s: string)
    ensures |s| == 6 && AllDigits(s)
  {
    PadLeftWidth(r.micro, 6);
    PadLeft(r.micro, 6)
  }

  /** The serial built for product `pk` at clock reading `r`. */
  function Serial(pk: nat, r: ClockReading): string {
    "RF-" + NatToString(pk) + "-" + Stamp(r) + "-" + MicroText(r)
  }

  /** Reads a two-digit field at `at` inside a stamp. */
  function Field(stamp: string, at: nat): nat
    requires at + 2 <= |stamp| && AllDigits(stamp)
  {
    ParseDigits(stamp[at..at + 2])
  }

  /** Reads a serial back into the product id and clock reading it was
      built from; anything that is not a well-formed serial gives None. */
  function ParseSerial(s: string): Option<(nat, ClockReading)> {
    if |s| < 22 || s[..3] != "RF-" || s[|s| - 18] != '-' || s[|s| - 7] != '-' then None
    else
      var id, stamp, micro := s[3..|s| - 18], s[|s| - 17..|s| - 7], s[|s| - 6..];
      if !(AllDigits(id) && id[0] != '0' && AllDigits(stamp) && AllDigits(micro)) then None
      else
        var r := Reading(Field(stamp, 0), Field(stamp, 2), Field(stamp, 4), Field(stamp, 6),
          Field(stamp, 8), ParseDigits(micro));
        if ValidReading(r) then Some((ParseDigits(id), r)) else None
  }

  /** Slicing a field out of a padded two-digit numeral reads its value. */
  lemma FieldOfPad(stamp: string, at: nat, v: nat)
    requires at + 2 <= |stamp| && AllDigits(stamp) && v < 100
    requires stamp[at..at + 2] == PadLeft(v, 2)
    ensures Field(stamp, at) == v
  {
    PadLeftValue(v, 2);
  }

  /** Where the parts of a serial sit inside it. */
  lemma SplitSerial(id: string, st: string, mt: string)
    requires |st| == 10 && |mt| == 6
    ensures var s := "RF-" + id + "-" + st + "-" + mt;
      |s| == 21 + |id| && s[..3] == "RF-" && s[|s| - 18] == '-' && s[|s| - 7] == '-'
      && s[3..|s| - 18] == id && s[|s| - 17..|s| - 7] == st && s[|s| - 6..] == mt
  {
    var s := "RF-" + id + "-" + st + "-" + mt;
    var n := |s|;
    assert s[3..n - 18] == id by {
      forall i | 0 <= i < |id| ensures s[3 + i] == id[i] { }
    }
    assert s[n - 17..n - 7] == st by {
      forall i | 0 <= i < 10 ensures s[n - 17 + i] == st[i] { }
    }
    assert s[n - 6..] == mt by {
      forall i | 0 <= i < 6 ensures s[n - 6 + i] == mt[i] { }
    }
  }

  /** A string with the serial's prefix and dashes is its parts joined. */
  lemma JoinSerial(s: string)
    requires |s| >= 22 && s[..3] == "RF-" && s[|s| - 18] == '-' && s[|s| - 7] == '-'
    ensures s == "RF-" + s[3..|s| - 18] + "-" + s[|s| - 17..|s| - 7] + "-" + s[|s| - 6..]
  {
    var n := |s|;
    var t := "RF-" + s[3..n - 18] + "-" + s[n - 17..n - 7] + "-" + s[n - 6..];
    assert |t| == n;
    forall i | 0 <= i < n ensures t[i] == s[i] {
      if i < 3 {
        assert s[i] == s[..3][i];
      }
    }
  }

  /** Parsing a serial recovers the product id and the clock reading. */
  lemma ParseSerialOfSerial(pk: nat, r: ClockReading)
    requires pk >= 1
    ensures ParseSerial(Serial(pk, r)) == Some((pk, r))
  {
    var id, st, mt := NatToString(pk), Stamp(r), MicroText(r);
    SplitSerial(id, st, mt);
    ParseNatToString(pk);
    StampFields(r);
    PadLeftValue(r.micro, 6);
    var s := Serial(pk, r);
    var n := |s|;
    assert s[3..n - 18] == id && s[n - 17..n - 7] == st && s[n - 6..] == mt;
    var back := Reading(Field(st, 0), Field(st, 2), Field(st, 4), Field(st, 6), Field(st, 8),
      ParseDigits(mt));
    assert back == r;
  }

  /** Each two-digit field of a stamp reads back as the clock field it shows. */
  lemma StampFields(r: ClockReading)
    ensures Field(Stamp(r), 0) == r.day && Field(Stamp(r), 2) == r.month
    ensures Field(Stamp(r), 4) == r.hour && Field(Stamp(r), 6) == r.minute
    ensures Field(Stamp(r), 8) == r.second
  {
    var a, b, c, d, e := PadLeft(r.day, 2), PadLeft(r.month, 2), PadLeft(r.hour, 2),
      PadLeft(r.minute, 2), PadLeft(r.second, 2);
    PadLeftWidth(r.day, 2);
    PadLeftWidth(r.month, 2);
    PadLeftWidth(r.hour, 2);
    PadLeftWidth(r.minute, 2);
    PadLeftWidth(r.second, 2);
    var st := Stamp(r);
    assert st == a + b + c + d + e;
    assert st[0..2] == a && st[2..4] == b && st[4..6] == c && st[6..8] == d && st[8..10] == e;
    FieldOfPad(st, 0, r.day);
    FieldOfPad(st, 2, r.month);
    FieldOfPad(st, 4, r.hour);
    FieldOfPad(st, 6, r.minute);
    FieldOfPad(st, 8, r.second);
  }

  /** A ten-digit stamp is the stamp of the reading read out of it. */
  lemma StampOfFields(st: string, r: ClockReading)
    requires |st| == 10 && AllDigits(st)
    requires r.day == Field(st, 0) && r.month == Field(st, 2) && r.hour == Field(st, 4)
    requires r.minute == Field(st, 6) && r.second == Field(st, 8)
    ensures Stamp(r) == st
  {
    PadLeftOfParse(st[0..2]);
    PadLeftOfParse(st[2..4]);
    PadLeftOfParse(st[4..6]);
    PadLeftOfParse(st[6..8]);
    PadLeftOfParse(st[8..10]);
    assert st == st[0..2] + st[2..4] + st[4..6] + st[6..8] + st[8..10];
  }

  /** Conversely, a string that parses is exactly the serial of what it
      parses to: the format has one spelling per (product, reading). */
  lemma SerialOfParseSerial(s: string)
    requires ParseSerial(s).Some?
    ensures ParseSerial(s).value.0 >= 1
    ensures Serial(ParseSerial(s).value.0, ParseSerial(s).value.1) == s
  {
    var n := |s|;
    var id, st, mt := s[3..n - 18], s[n - 17..n - 7], s[n - 6..];
    var pk, r := ParseSerial(s).value.0, ParseSerial(s).value.1;
    ParsePositive(id);
    NatToStringOfParse(id);
    PadLeftOfParse(mt);
    StampOfFields(st, r);
    JoinSerial(s);
  }

  /** Distinct products or clock readings never share a serial. */
  lemma SerialInjective(pk1: nat, r1: ClockReading, pk2: nat, r2: ClockReading)
    requires pk1 >= 1 && pk2 >= 1
    requires Serial(pk1, r1) == Serial(pk2, r2)
    ensures pk1 == pk2 && r1 == r2
  {
    ParseSerialOfSerial(pk1, r1);
    ParseSerialOfSerial(pk2, r2);
  }

  /** A serial is 21 characters plus the id's digits, and fits the column
      exactly when the id has at most 29 digits. */
  lemma SerialLength(pk: nat, r: ClockReading)
    ensures |Serial(pk, r)| == 21 + |NatToString(pk)|
    ensures |Serial(pk, r)| <= SerialMaxLength <==> pk < Pow10(29)
  {
    NatToStringLength(pk, 29);
  }

  datatype SerialError = ProductNotSaved | SerialTaken

  /** The model's form of "the product is missing or has no primary key":
      `pk` is None for a missing or unsaved product, and a key of 0 is
      falsy as well. */
  predicate Saved(pk: Option<nat>) {
    pk.Some? && pk.value != 0
  }

  /** generate_serial_number: refuses an unsaved product, builds the serial
      from the reading, and refuses (without retrying) a serial that is
      already stored. */
  function GenerateSerialNumber(pk: Option<nat>, r: ClockReading, existing: set<string>)
    : (res: Result<string, SerialError>)
    ensures res == Err(ProductNotSaved) <==> !Saved(pk)
    ensures res == Err(SerialTaken) <==> Saved(pk) && Serial(pk.value, r) in existing
    ensures res.Ok? ==> res.value !in existing
    ensures res.Ok? ==> Saved(pk) && res.value == Serial(pk.value, r)
  {
    if !Saved(pk) then Err(ProductNotSaved)
    else
      var serial := Serial(pk.value, r);
      if serial in existing then Err(SerialTaken) else Ok(serial)
  }

  /** A generated serial names its product and clock reading: it parses
      back to exactly those, and no other product or reading yields it. */
  lemma GeneratedSerialParses(pk: Option<nat>, r: ClockReading, existing: set<string>)
    ensures var res := GenerateSerialNumber(pk, r, existing);
      res.Ok? ==> Saved(pk) && ParseSerial(res.value) == Some((pk.value, r))
    ensures var res := GenerateSerialNumber(pk, r, existing);
      forall pk2: nat, r2: ClockReading :: res.Ok? && pk2 >= 1 && Serial(pk2, r2) == res.value
        ==> Some(pk2) == pk && r2 == r
  {
    var res := GenerateSerialNumber(pk, r, existing);
    if res.Ok? {
      ParseSerialOfSerial(pk.value, r);
      forall pk2: nat, r2: ClockReading | pk2 >= 1 && Serial(pk2, r2) == res.value
        ensures Some(pk2) == pk && r2 == r
      {
        SerialInjective(pk2, r2, pk.value, r);
      }
    }
  }

  /** ProductUnit.save: a unit that already has a serial keeps it; an empty
      one gets a freshly generated serial, or the generation error. */
  function SerialOnSave(serial: string, pk: Option<nat>, r: ClockReading, existing: set<string>)
    : (res: Result<string, SerialError>)
    ensures serial != "" ==> res == Ok(serial)
    ensures serial == "" && res.Ok? ==> res.value != "" && res.value !in existing
    ensures serial == "" && res.Ok? ==> Saved(pk) && res.value == Serial(pk.value, r)
    ensures serial == "" ==> (res.Err? <==> !Saved(pk) || Serial(pk.value, r) in existing)
  {
    if serial == "" then GenerateSerialNumber(pk, r, existing) else Ok(serial)
  }

  /** A stored unit: its serial, product and owning delivery. */
  datatype ProductUnit = ProductUnit(serial: string, product: nat, delivery: nat)
}
