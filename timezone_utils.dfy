/** The TimezoneManager: a per-user cache of resolved zone names, the fallbacks of its conversion and
    formatting methods, and the rendering of a UTC offset as "±HH:MM". A zone is represented by its
    name; what the zone database answers is given by the functions in `Context` and `ZoneOps`. */
module TimezoneUtils {
  import opened Wrappers
  import opened Text

  const DEFAULT_TIMEZONE := "UTC"
  const CACHE_PREFIX := "timezone_"

  /** What the zone lookup reads: the session user, each user's own zone setting ("" when unset), the
      system zone ("" when unset), and which names the zone database accepts. */
  datatype Context = Context(
    sessionUser: string,
    userZone: string -> string,
    systemZone: string,
    isKnown: string -> bool)

  function CacheKey(user: string): string
  {
    CACHE_PREFIX + user
  }

  /** Two users never share a cache entry. */
  lemma CacheKeysDistinct(u1: string, u2: string)
    requires u1 != u2
    ensures CacheKey(u1) != CacheKey(u2)
  {
    assert CacheKey(u1)[|CACHE_PREFIX|..] == u1;
    assert CacheKey(u2)[|CACHE_PREFIX|..] == u2;
  }

  /** The user's zone, else the system zone, else "UTC". */
  function PreferredZone(userTz: string, systemTz: string): (z: string)
    ensures z != ""
    ensures z == userTz || z == systemTz || z == DEFAULT_TIMEZONE
    ensures userTz != "" ==> z == userTz
    ensures userTz == "" && systemTz != "" ==> z == systemTz
  {
    if userTz != "" then userTz
    else if systemTz != "" then systemTz
    else DEFAULT_TIMEZONE
  }

  /** get_user_timezone as a function of the cache: the zone returned and the cache left behind. */
  function Lookup(cache: map<string, string>, user: string, ctx: Context): (map<string, string>, string)
  {
    var u := if user == "" then ctx.sessionUser else user;
    var key := CacheKey(u);
    if key in cache then (cache, cache[key])
    else
      var zone := PreferredZone(ctx.userZone(u), ctx.systemZone);
      if ctx.isKnown(zone) then (cache[key := zone], zone)
      else (cache, DEFAULT_TIMEZONE)
  }

  /** A cache hit answers with the cached zone and changes nothing; a miss adds at most the user's own
      entry, and only for a zone the database accepts; a zone it rejects gives "UTC". */
  lemma LookupEffect(cache: map<string, string>, user: string, ctx: Context)
    ensures var u := if user == "" then ctx.sessionUser else user;
      var (after, zone) := Lookup(cache, user, ctx);
      && (CacheKey(u) in cache ==> after == cache && zone == cache[CacheKey(u)])
      && (CacheKey(u) !in cache ==>
            var preferred := PreferredZone(ctx.userZone(u), ctx.systemZone);
            && (ctx.isKnown(preferred) ==> zone == preferred && after == cache[CacheKey(u) := zone])
            && (!ctx.isKnown(preferred) ==> zone == DEFAULT_TIMEZONE && after == cache))
  {
  }

  /** Asking twice gives the same zone, and the second time changes nothing. */
  lemma LookupTwice(cache: map<string, string>, user: string, ctx: Context)
    ensures var (after, zone) := Lookup(cache, user, ctx);
      Lookup(after, user, ctx) == (after, zone)
  {
  }

  /** Every cached zone is one the database accepts. */
  predicate CacheSound(cache: map<string, string>, ctx: Context)
  {
    forall key :: key in cache ==> ctx.isKnown(cache[key])
  }

  /** A lookup keeps the cache sound, and from a sound cache it returns an accepted zone or "UTC". */
  lemma LookupKeepsCacheSound(cache: map<string, string>, user: string, ctx: Context)
    requires CacheSound(cache, ctx)
    ensures var (after, zone) := Lookup(cache, user, ctx);
      CacheSound(after, ctx) && (ctx.isKnown(zone) || zone == DEFAULT_TIMEZONE)
  {
  }

  /** A wall-clock time in seconds, naive when it has no zone. */
  datatype DateTime = DateTime(wall: int, tz: Option<string>)

  /** The zone database's conversions, each None when it raises. */
  datatype ZoneOps = ZoneOps(
    localize: (string, int) -> Option<DateTime>,
    astimezone: (DateTime, string) -> Option<DateTime>,
    strftime: (DateTime, string) -> string,
    show: DateTime -> string)

  /** An aware time: a naive one is first localized to `zone`. */
  function Aware(dt: DateTime, zone: string, ops: ZoneOps): Option<DateTime>
  {
    if dt.tz.None? then ops.localize(zone, dt.wall) else Some(dt)
  }

  /** convert_to_utc once the source zone is known: on an error the time as it stood is returned. */
  function ToUtc(dt: DateTime, sourceZone: string, ops: ZoneOps): (r: DateTime)
  {
    match Aware(dt, sourceZone, ops)
    case None => dt
    case Some(local) => ops.astimezone(local, DEFAULT_TIMEZONE).GetOr(local)
  }

  /** convert_to_local once the target zone is known. */
  function ToLocal(dt: DateTime, targetZone: string, ops: ZoneOps): (r: DateTime)
  {
    match Aware(dt, DEFAULT_TIMEZONE, ops)
    case None => dt
    case Some(utc) => ops.astimezone(utc, targetZone).GetOr(utc)
  }

  /** format_datetime once the zone is known: on an error, `str()` of the time as it stood. */
  function FormatIn(dt: DateTime, zone: string, format: string, ops: ZoneOps): (r: string)
  {
    match Aware(dt, DEFAULT_TIMEZONE, ops)
    case None => ops.show(dt)
    case Some(utc) =>
      match ops.astimezone(utc, zone)
      case None => ops.show(utc)
      case Some(local) => ops.strftime(local, format)
  }

  /** Conversions never fail outward: an aware time whose conversion raises comes back unchanged, and so
      does a naive one whose localization raises; a failed format shows the input. */
  lemma ConversionFallbacks(dt: DateTime, zone: string, format: string, ops: ZoneOps)
    ensures dt.tz.Some? && ops.astimezone(dt, DEFAULT_TIMEZONE).None? ==> ToUtc(dt, zone, ops) == dt
    ensures dt.tz.None? && ops.localize(zone, dt.wall).None? ==> ToUtc(dt, zone, ops) == dt
    ensures dt.tz.Some? && ops.astimezone(dt, zone).None? ==> ToLocal(dt, zone, ops) == dt
    ensures dt.tz.None? && ops.localize(DEFAULT_TIMEZONE, dt.wall).None? ==> ToLocal(dt, zone, ops) == dt
    ensures dt.tz.Some? && ops.astimezone(dt, zone).None? ==> FormatIn(dt, zone, format, ops) == ops.show(dt)
    ensures dt.tz.None? && ops.localize(DEFAULT_TIMEZONE, dt.wall).None? ==> FormatIn(dt, zone, format, ops) == ops.show(dt)
  {
  }

  /** Every conversion answers in the requested zone when the database does: the result is either the
      database's answer or the (possibly localized) input. */
  lemma ToUtcIsConversionOrInput(dt: DateTime, zone: string, ops: ZoneOps)
    ensures var r := ToUtc(dt, zone, ops);
      r == dt || (dt.tz.None? && Some(r) == ops.localize(zone, dt.wall))
      || exists local :: Aware(dt, zone, ops) == Some(local) && ops.astimezone(local, DEFAULT_TIMEZONE) == Some(r)
  {
    match Aware(dt, zone, ops)
    case None =>
    case Some(local) =>
      if ops.astimezone(local, DEFAULT_TIMEZONE).Some? {
        assert Aware(dt, zone, ops) == Some(local);
      }
  }

  // ---------------------------------------------------------------------------------------------
  // get_timezone_offset

  /** Python's `int(a / b)` for a positive `b`: the quotient truncated toward zero. */
  function TruncDiv(a: int, b: int): int
    requires b > 0
  {
    if a >= 0 then a / b else -((-a) / b)
  }

  function Abs(n: int): nat { if n < 0 then -n else n }

  /** "±HH:MM" from a sign and the two fields. */
  function OffsetText(negative: bool, hours: nat, minutes: nat): string
  {
    (if negative then "-" else "+") + Pad2(hours) + ":" + Pad2(minutes)
  }

  /** get_timezone_offset as written: the hours are truncated toward zero and carry the sign, while the
      minutes are taken from the floor remainder (never negative for a positive divisor). */
  function OffsetAsWritten(seconds: int): string
  {
    var hours := TruncDiv(seconds, 3600);
    var minutes := (seconds % 3600) / 60;
    OffsetText(hours < 0, Abs(hours), Abs(minutes))
  }

  /** The offset as intended: the sign of the offset, then its magnitude in hours and minutes. */
  function FormatOffset(seconds: int): (s: string)
    ensures Abs(seconds) < 360000 ==> |s| == 6
  {
    var magnitude := Abs(seconds);
    Pad2RoundTrip(magnitude / 3600);
    Pad2RoundTrip((magnitude % 3600) / 60);
    OffsetText(seconds < 0, magnitude / 3600, (magnitude % 3600) / 60)
  }

  /** Reads "±HH:MM" back into seconds. */
  function ParseOffset(s: string): Option<int>
  {
    if |s| == 6 && (s[0] == '+' || s[0] == '-') && s[3] == ':' && AllDigits(s[1..3]) && AllDigits(s[4..6]) then
      var magnitude := DigitsValue(s[1..3]) * 3600 + DigitsValue(s[4..6]) * 60;
      Some(if s[0] == '+' then magnitude else -magnitude)
    else None
  }

  /** Any offset of whole minutes under 100 hours reads back as itself. */
  lemma FormatOffsetRoundTrip(seconds: int)
    requires seconds % 60 == 0 && -360000 < seconds < 360000
    ensures ParseOffset(FormatOffset(seconds)) == Some(seconds)
  {
    var magnitude := Abs(seconds);
    MagnitudeFields(magnitude);
    OffsetTextReadsBack(seconds < 0, magnitude / 3600, (magnitude % 3600) / 60);
  }

  /** A magnitude of whole minutes under 100 hours splits into hours under 100 and minutes under 60. */
  lemma MagnitudeFields(magnitude: nat)
    requires magnitude % 60 == 0 && magnitude < 360000
    ensures magnitude / 3600 < 100 && (magnitude % 3600) / 60 < 60
    ensures (magnitude / 3600) * 3600 + ((magnitude % 3600) / 60) * 60 == magnitude
  {
    var h, r := magnitude / 3600, magnitude % 3600;
    assert magnitude == h * 3600 + r;
    assert r % 60 == 0 by {
      assert magnitude == (h * 60) * 60 + r;
    }
  }

  /** The text of two fields under 100 reads back as their value in seconds, with the sign. */
  lemma OffsetTextReadsBack(negative: bool, hours: nat, minutes: nat)
    requires hours < 100 && minutes < 100
    ensures ParseOffset(OffsetText(negative, hours, minutes))
      == Some(if negative then -(hours * 3600 + minutes * 60) else hours * 3600 + minutes * 60)
  {
    Pad2RoundTrip(hours);
    Pad2RoundTrip(minutes);
    var sign := if negative then "-" else "+";
    var s := sign + Pad2(hours) + ":" + Pad2(minutes);
    assert s[1..3] == Pad2(hours) && s[4..6] == Pad2(minutes);
    assert s[0] == sign[0] && s[3] == ':';
  }

  /** For offsets east of UTC the source's arithmetic is right. */
  lemma AsWrittenAgreesEastOfUtc(seconds: int)
    requires seconds >= 0
    ensures OffsetAsWritten(seconds) == FormatOffset(seconds)
  {
  }

  /** West of UTC it is also right for whole and half hours of at least one hour: the hours and the
      minutes the two compute are the same. */
  lemma AsWrittenAgreesOnWholeAndHalfHoursWest(seconds: int)
    requires seconds <= -3600 && seconds % 1800 == 0
    ensures OffsetAsWritten(seconds) == FormatOffset(seconds)
  {
    WestFields(seconds);
  }

  /** The fields behind the lemma above: negative hours of the same magnitude, and the same minutes. */
  lemma WestFields(seconds: int)
    requires seconds <= -3600 && seconds % 1800 == 0
    ensures TruncDiv(seconds, 3600) == -((-seconds) / 3600) < 0
    ensures (seconds % 3600) / 60 == ((-seconds) % 3600) / 60
  {
    var magnitude := -seconds;
    var h, r := magnitude / 3600, magnitude % 3600;
    assert h >= 1;
    assert r == 0 || r == 1800;
    NegatedRemainder(h, r);
  }

  /** Taking a whole or half hour off a whole number of hours leaves the same remainder on either side
      of zero. */
  lemma NegatedRemainder(h: int, r: int)
    requires h >= 0 && (r == 0 || r == 1800)
    ensures (-(h * 3600 + r)) % 3600 == r
  {
    if r == 0 {
      assert -(h * 3600) == (-h) * 3600;
    } else {
      assert -(h * 3600 + r) == (-h - 1) * 3600 + 1800;
    }
  }

  /** Half an hour west of UTC is printed as half an hour east. */
  lemma AsWrittenSignLost()
    ensures OffsetAsWritten(-1800) == "+00:30"
    ensures FormatOffset(-1800) == "-00:30"
    ensures ParseOffset(OffsetAsWritten(-1800)) == Some(1800)
  {
    assert Pad2(0) == "00";
    assert Pad2(30) == "30" by { assert NatToString(30) == NatToString(3) + [DigitChar(0)]; }
    FormatOffsetRoundTrip(1800);
    assert FormatOffset(1800) == "+00:30";
  }

  /** Two hours forty-five minutes west of UTC is printed as two hours fifteen. */
  lemma AsWrittenMinutesWrong()
    ensures OffsetAsWritten(-9900) == "-02:15"
    ensures FormatOffset(-9900) == "-02:45"
  {
    assert -9900 % 3600 == 900;
    assert Pad2(2) == "02";
    assert Pad2(15) == "15" by { assert NatToString(15) == NatToString(1) + [DigitChar(5)]; }
    assert Pad2(45) == "45" by { assert NatToString(45) == NatToString(4) + [DigitChar(5)]; }
  }

  /** get_timezone_offset as written; `offsetOf` is the zone's current offset in seconds, None when the
      zone is unknown or the lookup raises. */
  function TimezoneOffset(zoneId: string, offsetOf: string -> Option<int>): string
  {
    match offsetOf(zoneId)
    case None => "+00:00"
    case Some(seconds) => OffsetAsWritten(seconds)
  }

  /** get_timezone_offset with the offset rendering corrected. */
  function TimezoneOffsetCorrected(zoneId: string, offsetOf: string -> Option<int>): string
  {
    match offsetOf(zoneId)
    case None => "+00:00"
    case Some(seconds) => FormatOffset(seconds)
  }

  /** East of UTC the source's rendering of a whole-minute offset reads back as the offset. */
  lemma AsWrittenReadsBackEast(seconds: int)
    requires seconds % 60 == 0 && 0 <= seconds < 360000
    ensures ParseOffset(OffsetAsWritten(seconds)) == Some(seconds)
  {
    AsWrittenAgreesEastOfUtc(seconds);
    FormatOffsetRoundTrip(seconds);
  }

  /** West of UTC so does its rendering of a whole or half hour of at least one hour. */
  lemma AsWrittenReadsBackWest(seconds: int)
    requires seconds % 1800 == 0 && -360000 < seconds <= -3600
    ensures ParseOffset(OffsetAsWritten(seconds)) == Some(seconds)
  {
    AsWrittenAgreesOnWholeAndHalfHoursWest(seconds);
    HalfHoursAreWholeMinutes(seconds);
    FormatOffsetRoundTrip(seconds);
  }

  lemma HalfHoursAreWholeMinutes(seconds: int)
    requires seconds % 1800 == 0
    ensures seconds % 60 == 0
  {
    var k := seconds / 1800;
    assert seconds == k * 1800;
    assert seconds == (k * 30) * 60;
  }

  /** As written: an error gives "+00:00"; a whole-minute offset east of UTC, or a whole or half hour
      at least one hour west of it, reads back as the zone's offset. Other offsets west of UTC do not
      (see AsWrittenSignLost and AsWrittenMinutesWrong). */
  lemma TimezoneOffsetReadsBack(zoneId: string, offsetOf: string -> Option<int>)
    ensures offsetOf(zoneId).None? ==> TimezoneOffset(zoneId, offsetOf) == "+00:00"
    ensures offsetOf(zoneId).Some? && offsetOf(zoneId).value % 60 == 0 && 0 <= offsetOf(zoneId).value < 360000 ==>
      ParseOffset(TimezoneOffset(zoneId, offsetOf)) == offsetOf(zoneId)
    ensures offsetOf(zoneId).Some? && offsetOf(zoneId).value % 1800 == 0 && -360000 < offsetOf(zoneId).value <= -3600 ==>
      ParseOffset(TimezoneOffset(zoneId, offsetOf)) == offsetOf(zoneId)
  {
    match offsetOf(zoneId)
    case None =>
    case Some(seconds) =>
      if seconds % 60 == 0 && 0 <= seconds < 360000 {
        AsWrittenReadsBackEast(seconds);
      } else if seconds % 1800 == 0 && -360000 < seconds <= -3600 {
        AsWrittenReadsBackWest(seconds);
      }
  }

  /** Corrected: an error gives "+00:00"; every whole-minute offset under 100 hours reads back as the
      zone's offset. */
  lemma TimezoneOffsetCorrectedReadsBack(zoneId: string, offsetOf: string -> Option<int>)
    ensures offsetOf(zoneId).None? ==> TimezoneOffsetCorrected(zoneId, offsetOf) == "+00:00"
    ensures offsetOf(zoneId).Some? && offsetOf(zoneId).value % 60 == 0 && -360000 < offsetOf(zoneId).value < 360000 ==>
      ParseOffset(TimezoneOffsetCorrected(zoneId, offsetOf)) == offsetOf(zoneId)
  {
    if offsetOf(zoneId).Some? && offsetOf(zoneId).value % 60 == 0 && -360000 < offsetOf(zoneId).value < 360000 {
      FormatOffsetRoundTrip(offsetOf(zoneId).value);
    }
  }

  /** The manager object: its cache maps "timezone_<user>" to a zone name. */
  class TimezoneManager {
    var cache: map<string, string>

    constructor ()
      ensures cache == map[]
    {
      cache := map[];
    }

    /** get_user_timezone */
    method GetUserTimezone(user: string, ctx: Context) returns (zone: string)
      modifies this
      ensures (cache, zone) == Lookup(old(cache), user, ctx)
    {
      var u := if user == "" then ctx.sessionUser else user;
      var key := CACHE_PREFIX + u;
      if key in cache {
        return cache[key];
      }
      var userTz := ctx.userZone(u);
      if userTz == "" {
        userTz := if ctx.systemZone != "" then ctx.systemZone else DEFAULT_TIMEZONE;
      }
      if !ctx.isKnown(userTz) {
        return DEFAULT_TIMEZONE;
      }
      cache := cache[key := userTz];
      return userTz;
    }

    /** convert_to_utc: without a source zone the user's zone is looked up (and possibly cached). */
    method ConvertToUtc(dt: DateTime, sourceZone: Option<string>, ctx: Context, ops: ZoneOps) returns (r: DateTime)
      modifies this
      ensures sourceZone.Some? ==> r == ToUtc(dt, sourceZone.value, ops) && cache == old(cache)
      ensures sourceZone.None? ==>
        var (after, zone) := Lookup(old(cache), "", ctx);
        r == ToUtc(dt, zone, ops) && cache == after
    {
      var zone: string;
      if sourceZone.Some? {
        zone := sourceZone.value;
      } else {
        zone := GetUserTimezone("", ctx);
      }
      r := ToUtc(dt, zone, ops);
    }

    /** convert_to_local */
    method ConvertToLocal(dt: DateTime, targetZone: Option<string>, ctx: Context, ops: ZoneOps) returns (r: DateTime)
      modifies this
      ensures targetZone.Some? ==> r == ToLocal(dt, targetZone.value, ops) && cache == old(cache)
      ensures targetZone.None? ==>
        var (after, zone) := Lookup(old(cache), "", ctx);
        r == ToLocal(dt, zone, ops) && cache == after
    {
      var zone: string;
      if targetZone.Some? {
        zone := targetZone.value;
      } else {
        zone := GetUserTimezone("", ctx);
      }
      r := ToLocal(dt, zone, ops);
    }

    /** format_datetime */
    method FormatDatetime(dt: DateTime, zone: Option<string>, format: string, ctx: Context, ops: ZoneOps) returns (r: string)
      modifies this
      ensures zone.Some? ==> r == FormatIn(dt, zone.value, format, ops) && cache == old(cache)
      ensures zone.None? ==>
        var (after, z) := Lookup(old(cache), "", ctx);
        r == FormatIn(dt, z, format, ops) && cache == after
    {
      var z: string;
      if zone.Some? {
        z := zone.value;
      } else {
        z := GetUserTimezone("", ctx);
      }
      r := FormatIn(dt, z, format, ops);
    }

    /** clear_cache */
    method ClearCache()
      modifies this
      ensures cache == map[]
    {
      cache := map[];
    }
  }
}
