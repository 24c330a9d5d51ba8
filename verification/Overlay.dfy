/**
 * The overlay configuration: a JSON object in a file that CHANGE_FRAME reads,
 * changes in memory and writes back.
 */
module Overlay {
  import opened Text
  import opened Wrappers
  import opened Json

  /** The file may be missing or hold text that does not parse. */
  datatype File = Missing | Garbled | Config(settings: Object)

  /** What a well-formed command asks for. */
  datatype Change = Bbox(on: bool) | Timestamp(on: bool) | Mode(mode: string) | Sharp(level: int)

  /** Its tokens: no menu number at all, a wrong value, or a change. */
  datatype Request = NoMenu | Invalid | Change(change: Change)

  predicate IsMode(m: string) { m == "original" || m == "sharp" || m == "day" || m == "night" }

  function Parse(payload: string): Request {
    var (s1, menu) := Open(payload).Int(0);
    if s1.fail then NoMenu
    else if menu == 0 || menu == 1 then
      var (s2, v) := s1.Int(0);
      if s2.fail || (v != 0 && v != 1) then Invalid
      else Change(if menu == 0 then Bbox(v == 1) else Timestamp(v == 1))
    else if menu == 2 then
      var (s2, mode) := s1.Word();
      if s2.fail || !IsMode(mode) then Invalid
      else if mode == "sharp" then
        var (s3, level) := s2.Int(0);
        if s3.fail || level < 0 || level > 100 then Invalid else Change(Sharp(level))
      else Change(Mode(mode))
    else Invalid
  }

  function Apply(o: Object, c: Change): Object {
    match c
    case Bbox(on) => o["show_bbox" := Bool(on)]
    case Timestamp(on) => o["show_timestamp" := Bool(on)]
    case Mode(mode) => o["mode" := Text(mode)] - {"sharpness_level"}
    case Sharp(level) => o["mode" := Text("sharp")]["sharpness_level" := Int(level)]
  }

  /** One CHANGE_FRAME; `writable` says whether the file can be opened for writing. */
  function ChangeFrame(file: File, payload: string, writable: bool): (File, int) {
    match Parse(payload)
    case NoMenu => (file, 400)
    case Invalid => (file, if file.Config? then 400 else 500)
    case Change(c) =>
      if !file.Config? || !writable then (file, 500) else (Config(Apply(file.settings, c)), 200)
  }

  class OverlayFile {
    var file: File

    constructor (file: File)
      ensures this.file == file
    {
      this.file := file;
    }

    method HandleChangeFrame(payload: string, writable: bool) returns (code: int)
      modifies this
      ensures (file, code) == ChangeFrame(old(file), payload, writable)
    {
      hide Stream.Int, Stream.Word;
      var iss := new IStringStream(payload);
      var menuType := iss.ReadInt(0);
      if iss.state.fail {
        return 400;
      }
      if !file.Config? {
        return 500;
      }
      var config := file.settings;
      if menuType == 0 || menuType == 1 {
        var boolVal := iss.ReadInt(0);
        if iss.state.fail || (boolVal != 0 && boolVal != 1) {
          return 400;
        }
        if menuType == 0 {
          config := config["show_bbox" := Bool(boolVal == 1)];
        } else {
          config := config["show_timestamp" := Bool(boolVal == 1)];
        }
      } else if menuType == 2 {
        var modeVal := iss.ReadWord();
        if iss.state.fail || !IsMode(modeVal) {
          return 400;
        }
        config := config["mode" := Text(modeVal)];
        if modeVal == "sharp" {
          var sharpnessVal := iss.ReadInt(0);
          if iss.state.fail || sharpnessVal < 0 || sharpnessVal > 100 {
            return 400;
          }
          config := config["sharpness_level" := Int(sharpnessVal)];
        } else {
          config := config - {"sharpness_level"};
        }
      } else {
        return 400;
      }
      if !writable {
        return 500;
      }
      file := Config(config);
      return 200;
    }
  }

  // ---------- whole runs ----------

  /** A command as it arrives, and whether the file could be written. */
  datatype Call = Call(payload: string, writable: bool)

  function Run(file: File, calls: seq<Call>): File
    decreases |calls|
  {
    if calls == [] then file
    else
      var last := calls[|calls| - 1];
      ChangeFrame(Run(file, calls[..|calls| - 1]), last.payload, last.writable).0
  }

  /** `sharpness_level` is there, within 0..100, exactly when the mode is "sharp". */
  predicate Coherent(o: Object) {
    if "mode" in o && o["mode"] == Text("sharp") then
      "sharpness_level" in o && match o["sharpness_level"] case Int(n) => 0 <= n <= 100 case _ => false
    else "sharpness_level" !in o
  }

  /** A request that parses asks for a level in range and never for mode "sharp" without one. */
  lemma ParsedChange(payload: string)
    ensures match Parse(payload)
            case Change(Sharp(level)) => 0 <= level <= 100
            case Change(Mode(mode)) => IsMode(mode) && mode != "sharp"
            case _ => true
  {
  }

  lemma ApplyCoherent(o: Object, c: Change)
    requires Coherent(o)
    requires c.Sharp? ==> 0 <= c.level <= 100
    requires c.Mode? ==> c.mode != "sharp"
    ensures Coherent(Apply(o, c))
  {
    match c
    case Bbox(_) =>
    case Timestamp(_) =>
    case Mode(_) =>
    case Sharp(_) =>
  }

  /** No command breaks the link between mode and level. */
  lemma {:induction false} RunCoherent(o: Object, calls: seq<Call>)
    requires Coherent(o)
    ensures Run(Config(o), calls).Config? && Coherent(Run(Config(o), calls).settings)
    decreases |calls|
  {
    hide Parse, Apply, Coherent;
    if calls != [] {
      RunCoherent(o, calls[..|calls| - 1]);
      var request := Parse(calls[|calls| - 1].payload);
      if request.Change? {
        ParsedChange(calls[|calls| - 1].payload);
        ApplyCoherent(Run(Config(o), calls[..|calls| - 1]).settings, request.change);
      }
    }
  }

  /** The changes of the successful commands, in order. */
  function Changes(calls: seq<Call>): seq<Change>
    decreases |calls|
  {
    if calls == [] then []
    else
      var last := calls[|calls| - 1];
      var request := Parse(last.payload);
      Changes(calls[..|calls| - 1]) + (if last.writable && request.Change? then [request.change] else [])
  }

  /** What a change does to one setting: leaves it, removes it, or gives it a value. */
  datatype Touch = Leaves | Removes | Sets(value: Json)

  function TouchOf(c: Change, key: string): Touch {
    match c
    case Bbox(on) => if key == "show_bbox" then Sets(Bool(on)) else Leaves
    case Timestamp(on) => if key == "show_timestamp" then Sets(Bool(on)) else Leaves
    case Mode(mode) => if key == "mode" then Sets(Text(mode)) else if key == "sharpness_level" then Removes else Leaves
    case Sharp(level) =>
      if key == "mode" then Sets(Text("sharp"))
      else if key == "sharpness_level" then Sets(Int(level)) else Leaves
  }

  /** The last change that concerns the setting, if any. */
  function LastTouch(cs: seq<Change>, key: string): Touch {
    if cs == [] then Leaves
    else
      var t := TouchOf(cs[|cs| - 1], key);
      if t.Leaves? then LastTouch(cs[..|cs| - 1], key) else t
  }

  function Overlaid(before: Option<Json>, touch: Touch): Option<Json> {
    match touch
    case Leaves => before
    case Removes => None
    case Sets(v) => Some(v)
  }

  lemma ApplyTouches(o: Object, c: Change, key: string)
    ensures Get(Apply(o, c), key) == Overlaid(Get(o, key), TouchOf(c, key))
  {}

  /** Each setting ends as the last successful change to it left it, or as it was. */
  lemma {:induction false} RunOverlays(o: Object, calls: seq<Call>, key: string)
    ensures var r := Run(Config(o), calls);
            r.Config? && Get(r.settings, key) == Overlaid(Get(o, key), LastTouch(Changes(calls), key))
    decreases |calls|
  {
    hide Parse, Apply, TouchOf;
    if calls != [] {
      var shorter, last := calls[..|calls| - 1], calls[|calls| - 1];
      RunOverlays(o, shorter, key);
      if last.writable && Parse(last.payload).Change? {
        var c := Parse(last.payload).change;
        ApplyTouches(Run(Config(o), shorter).settings, c, key);
        assert (Changes(shorter) + [c])[..|Changes(shorter)|] == Changes(shorter);
      } else {
        assert Changes(shorter) + [] == Changes(shorter);
      }
    }
  }
}
