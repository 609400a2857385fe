/** Receiving a package over the console: base64 lines decoded one after the other into the staging buffer. */
module Upload {
  import opened Bytes
  import Base64
  import Dzp

  const STAGE_SIZE: nat := 65536
  const DOT: seq<byte> := [46]
  const BANG: seq<byte> := [33]

  /** `Staged(n)`: the sender finished with `n` bytes staged. `Waiting`: the lines so far do not end the upload. */
  datatype Outcome = Staged(n: nat) | Aborted | Rejected | Waiting(n: nat)

  /** What the lines stage after `sofar`: the outcome and the bytes. */
  ghost function Received(lines: seq<seq<byte>>, sofar: seq<byte>): (r: (Outcome, seq<byte>))
    decreases |lines|
  {
    if lines == [] then (Waiting(|sofar|), sofar)
    else if lines[0] == DOT then (Staged(|sofar|), sofar)
    else if lines[0] == BANG then (Aborted, sofar)
    else if lines[0] == [] then Received(lines[1..], sofar)
    else
      var d := Base64.Decoded(lines[0]);
      if d.None? || |sofar| + |d.value| > STAGE_SIZE then (Rejected, sofar)
      else Received(lines[1..], sofar + d.value)
  }

  /** `receive_raw_into_stage`, for the lines the console reads. */
  method ReceiveIntoStage(lines: seq<seq<byte>>, stage: array<byte>) returns (r: Outcome)
    requires stage.Length == STAGE_SIZE
    modifies stage
    ensures r == Received(lines, []).0
    ensures r.Staged? ==> r.n <= STAGE_SIZE && stage[..r.n] == Received(lines, []).1
  {
    hide Base64.Decoded;
    var staged: nat := 0;
    var i := 0;
    assert lines[0..] == lines && stage[..0] == [];
    while i < |lines|
      invariant i <= |lines| && staged <= STAGE_SIZE
      invariant Received(lines, []) == Received(lines[i..], stage[..staged])
    {
      var text := lines[i];
      if text == DOT {
        return Staged(staged);
      }
      if text == BANG {
        return Aborted;
      }
      assert lines[i..][1..] == lines[i + 1..];
      if text != [] {
        ghost var sofar := stage[..staged];
        var k := Base64.Decode(text, stage, staged);
        assert stage[..staged] == sofar;
        if k.None? {
          return Rejected;
        }
        assert stage[..staged + k.value] == sofar + stage[staged..staged + k.value];
        staged := staged + k.value;
      }
      i := i + 1;
    }
    r := Waiting(staged);
  }

  /** The lines of data a sender writes for `chunks`. */
  ghost function Data(chunks: seq<seq<byte>>): (ls: seq<seq<byte>>) {
    if chunks == [] then [] else [Base64.Encode(chunks[0])] + Data(chunks[1..])
  }

  /** The same, and a full stop to end with. */
  ghost function Lines(chunks: seq<seq<byte>>): (ls: seq<seq<byte>>) {
    Data(chunks) + [[46]]
  }

  ghost function Joined(chunks: seq<seq<byte>>): seq<byte> {
    if chunks == [] then [] else chunks[0] + Joined(chunks[1..])
  }

  lemma EncodedIsData(c: seq<byte>)
    requires c != []
    ensures var s := Base64.Encode(c);
            s != [] && s != DOT && s != BANG
  {
    hide Base64.Decoded, Base64.Encode;
    Base64.RoundTrip(c);
    NoMeaning();
  }

  lemma NoMeaning()
    ensures Base64.Decoded(DOT).None? && Base64.Decoded(BANG).None? && Base64.Decoded([]) == Some([])
  {
    assert Base64.BodyLen(DOT[..0]) == 0 && Base64.BodyLen(BANG[..0]) == 0;
    Base64.NotASign(DOT, 0);
    Base64.NotASign(BANG, 0);
  }

  /** Lines of data stage their bytes, one after the other. */
  lemma {:induction false} DataStages(chunks: seq<seq<byte>>, sofar: seq<byte>, rest: seq<seq<byte>>)
    requires forall i :: 0 <= i < |chunks| ==> chunks[i] != []
    requires |sofar| + |Joined(chunks)| <= STAGE_SIZE
    ensures Received(Data(chunks) + rest, sofar) == Received(rest, sofar + Joined(chunks))
    decreases |chunks|
  {
    hide Base64.Decoded, Base64.Encode;
    if chunks == [] {
      assert sofar + Joined(chunks) == sofar && Data(chunks) + rest == rest;
    } else {
      EncodedIsData(chunks[0]);
      Base64.RoundTrip(chunks[0]);
      assert (Data(chunks) + rest)[1..] == Data(chunks[1..]) + rest;
      DataStages(chunks[1..], sofar + chunks[0], rest);
      assert sofar + chunks[0] + Joined(chunks[1..]) == sofar + Joined(chunks);
    }
  }

  /** What the line after any amount of data does: a full stop ends the upload with exactly that data, an exclamation mark
      gives it up, an empty line changes nothing, and a line that is no base64, or too much of it, is refused. */
  lemma NextLine(chunks: seq<seq<byte>>, line: seq<byte>, rest: seq<seq<byte>>)
    requires forall i :: 0 <= i < |chunks| ==> chunks[i] != []
    requires |Joined(chunks)| <= STAGE_SIZE
    ensures var r := Received(Data(chunks) + [line] + rest, []).0;
            && (line == [46] ==> r == Staged(|Joined(chunks)|))
            && (line == [33] ==> r == Aborted)
            && (line == [] ==> r == Received(Data(chunks) + rest, []).0)
            && (line !in {[46], [33]} && Base64.Decoded(line).None? ==> r == Rejected)
            && (line !in {[46], [33]} && Base64.Decoded(line).Some? && |Joined(chunks)| + |Base64.Decoded(line).value| > STAGE_SIZE ==>
                  r == Rejected)
  {
    hide Base64.Decoded;
    NoMeaning();
    DataStages(chunks, [], [line] + rest);
    DataStages(chunks, [], rest);
    assert Data(chunks) + [line] + rest == Data(chunks) + ([line] + rest);
    assert ([line] + rest)[1..] == rest;
    assert [] + Joined(chunks) == Joined(chunks);
  }

  /** Whatever the chunks, the stage ends up holding their concatenation. */
  lemma LinesStage(chunks: seq<seq<byte>>)
    requires (forall i :: 0 <= i < |chunks| ==> chunks[i] != []) && |Joined(chunks)| <= STAGE_SIZE
    ensures Received(Lines(chunks), []) == (Staged(|Joined(chunks)|), Joined(chunks))
  {
    DataStages(chunks, [], [[46]]);
    assert [] + Joined(chunks) == Joined(chunks);
  }

  /** Upload round trip: a package that `pack` made, cut into any non-empty chunks, encoded line by line and decoded
      into the stage, parses back to the kind, manifest and payload it was made of. */
  lemma UploadedPackageParses(kind: Dzp.Kind, manifest: seq<byte>, payload: seq<byte>, utf8: seq<byte> -> bool,
                              chunks: seq<seq<byte>>)
    requires Dzp.KnownKind(kind) && utf8(manifest)
    requires Joined(chunks) == Dzp.Packed(kind, manifest, payload) && |Joined(chunks)| <= STAGE_SIZE
    requires forall i :: 0 <= i < |chunks| ==> 1 <= |chunks[i]| <= 90
    ensures var (r, stage) := Received(Lines(chunks), []);
            r == Staged(|stage|) && Dzp.Parse(stage, utf8) == Dzp.Ok(Dzp.Package(kind, manifest, payload))
    ensures forall i :: 0 <= i < |chunks| ==> |Base64.Encode(chunks[i])| <= 120
  {
    LinesStage(chunks);
    Dzp.ParsePacked(kind, manifest, payload, utf8);
    forall i | 0 <= i < |chunks|
      ensures |Base64.Encode(chunks[i])| <= 120
    {
      Base64.LineLength(chunks[i]);
    }
  }
}
