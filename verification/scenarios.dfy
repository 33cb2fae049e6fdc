/** Concrete cases of the catalog, the clone workflow and the speech workflow. */
module Scenarios {
  import opened Options
  import opened Strings
  import opened Voices
  import opened Catalog
  import opened Cloning
  import opened Synthesis

  function PublicVoice(id: string, name: string, language: string): Voice
  {
    Voice(id, VoiceRecord(name, None, language, ["u"], 1, "t", true, None))
  }

  /** With the community list [Echo (en), Nova (fr)], searching "ec" keeps
      Echo alone and the language "fr" keeps Nova alone. */
  lemma EchoNovaFilter()
    ensures var echo := PublicVoice("1", "Echo", "en");
            var nova := PublicVoice("2", "Nova", "fr");
            && FilterVoices([echo, nova], "ec", "") == [echo]
            && FilterVoices([echo, nova], "", "fr") == [nova]
  {
    var echo := PublicVoice("1", "Echo", "en");
    var nova := PublicVoice("2", "Nova", "fr");
    assert Lower("Echo") == "echo";
    assert Lower("Nova") == "nova";
    assert Lower("ec") == "ec";
    assert StartsWith("echo", "ec");
    assert Matches(echo, "ec", "");
    assert !Contains("nova", "ec") by {
      ContainsIffOccurs("nova", "ec");
      forall i | 0 <= i < 4
        ensures !OccursAt("ec", "nova", i)
      {
        if i == 0 {
          assert "nova"[0] == 'n';
        } else if i == 1 {
          assert "nova"[1] == 'o';
        } else if i == 2 {
          assert "nova"[2] == 'v';
        } else {
          assert "nova"[3] == 'a';
        }
      }
    }
    assert !Matches(nova, "ec", "");
    assert !Matches(echo, "", "fr");
    ContainsEmpty("nova");
    assert Matches(nova, "", "fr");
    assert [echo, nova][1..] == [nova];
  }

  /** An upload service that rejects the second upload and accepts every other. */
  function FailSecond(k: nat): Option<Url>
  {
    if k == 1 then None else Some("u")
  }

  /** Three files whose second upload fails: two upload calls, no create,
      the voice list unchanged. */
  method SecondOfThreeUploadsFails(app: App, name: string) returns (run: CloneRun)
    requires Trim(name) != ""
    requires app.selection.Some? && |app.selection.value| == 3
    ensures run.outcome == UploadFailed(1)
    ensures |run.calls| == 2 && run.calls[0].UploadCall? && run.calls[1].UploadCall?
    ensures run.app == app && run.app.voices == app.voices
  {
    run := CloneVoice(app, name, "", "en", false, "t", FailSecond, Some("v"));
    assert FailSecond(0).Some? && FailSecond(1).None?;
    assert CanClone(app, name);
    assert !(run.outcome.Cloned? || run.outcome.CreateFailed?);
    assert run.outcome.UploadFailed?;
    assert run.outcome.index == 1;
  }
}
