/** One attempt of a file provider, call by call: fetch, transform, template, write
    (provider/aws_secrets_manager/file_provider.go, provider/hashicorp_vault/file_provider.go).
    How attempts interleave is the subject of FileRefresh. */
module FileProvider {
  import opened Text
  import opened Json
  import opened Template
  import opened Transform
  import Kv

  /** The texts the stages may leave of a secret. */
  ghost predicate MayStage(lower: Lower, unmarshal: Unmarshal, mappings: seq<KeyMapping>, mode: Mode, templ: string,
                           secret: string, staged: string) {
    exists mapped ::
      && TextMayReturn(lower, unmarshal, mappings, mode, secret, mapped)
      && staged == if templ == "" then mapped else Rendered(templ, Unmarshalled(mapped, unmarshal))
  }

  /** The secret as it is when there is no mapping or it is no object, else transformed;
      then put into the template if there is one. */
  ghost predicate Stages(lower: Lower, unmarshal: Unmarshal, mappings: seq<KeyMapping>, mode: Mode, templ: string,
                         secret: string, mapped: string, staged: string) {
    && (mappings == [] || unmarshal(secret).NotAnObject? ==> mapped == secret)
    && (mappings != [] && unmarshal(secret).Fields? ==>
          exists fields: Object ::
            MayReturn(unmarshal(secret).fields, lower, mappings, mode, fields) && mapped == Marshal(fields))
    && (templ == "" ==> staged == mapped)
    && (templ != "" ==> forall shape: Shape :: shape.Lawful() && shape.Source() == templ ==>
          staged == Render(shape, LookupIn(Secret(mapped, unmarshal(mapped))), true).text)
  }

  lemma StagesIff(lower: Lower, unmarshal: Unmarshal, mappings: seq<KeyMapping>, mode: Mode, templ: string,
                  secret: string, mapped: string, staged: string)
    ensures Stages(lower, unmarshal, mappings, mode, templ, secret, mapped, staged) <==>
              && TextMayReturn(lower, unmarshal, mappings, mode, secret, mapped)
              && staged == if templ == "" then mapped else Rendered(templ, Unmarshalled(mapped, unmarshal))
  {
    OnlyShape(templ);
    hide MayReturn, Marshal, Render, ShapeOf, Shape.Lawful, Shape.Source, LookupIn;
    var shape := ShapeOf(templ);
    assert shape.Lawful() && shape.Source() == templ;
  }

  /** The texts that may be staged are exactly those. */
  lemma StagedIff(lower: Lower, unmarshal: Unmarshal, mappings: seq<KeyMapping>, mode: Mode, templ: string,
                  secret: string, staged: string)
    ensures MayStage(lower, unmarshal, mappings, mode, templ, secret, staged) <==>
              exists mapped :: Stages(lower, unmarshal, mappings, mode, templ, secret, mapped, staged)
  {
    hide Stages, TextMayReturn, Rendered;
    forall mapped
      ensures Stages(lower, unmarshal, mappings, mode, templ, secret, mapped, staged) <==>
                && TextMayReturn(lower, unmarshal, mappings, mode, secret, mapped)
                && staged == if templ == "" then mapped else Rendered(templ, Unmarshalled(mapped, unmarshal))
    {
      StagesIff(lower, unmarshal, mappings, mode, templ, secret, mapped, staged);
    }
  }

  /** What `os.WriteFile` and `os.Chmod` did; a failing write leaves what it had written. */
  datatype WriteOutcome = Succeeded | OpenFailed | WriteFailed(written: nat) | ChmodFailed

  class Provider {
    const mappings: seq<KeyMapping>
    const mode: Mode
    const lower: Lower
    const unmarshal: Unmarshal
    const templ: string
    /** The file's contents. */
    var contents: string

    constructor (mappings: seq<KeyMapping>, mode: Mode, lower: Lower, unmarshal: Unmarshal, templ: string,
                 contents: string)
      ensures this.mappings == mappings && this.mode == mode && this.templ == templ
      ensures this.lower == lower && this.unmarshal == unmarshal
      ensures this.contents == contents
    {
      this.mappings, this.mode, this.templ := mappings, mode, templ;
      this.lower, this.unmarshal := lower, unmarshal;
      this.contents := contents;
    }

    /** `getSecret` of the AWS provider; `fetched` is what the service answered. */
    method GetSecret(fetched: Option<string>) returns (secret: Option<string>)
      ensures secret.Some? <==> fetched.Some?
      ensures fetched.Some? ==> MayStage(lower, unmarshal, mappings, mode, templ, fetched.value, secret.value)
    {
      hide Rendered, Marshal, MayReturn;
      if fetched.None? {
        return None;
      }
      var secretString := fetched.value;
      if mappings != [] {
        secretString := Run(mappings, mode, lower, unmarshal, secretString);
      }
      ghost var mapped := secretString;
      if templ != "" {
        secretString := Substitute(templ, Unmarshalled(secretString, unmarshal));
      }
      assert TextMayReturn(lower, unmarshal, mappings, mode, fetched.value, mapped);
      return Some(secretString);
    }

    /** `getSecret` of the Vault provider: the payload or one field first. */
    method GetVaultSecret(answer: Kv.Answer, field: string) returns (secret: Option<string>)
      ensures secret.Some? <==> answer.Data? && (field == "" || field in answer.data)
      ensures secret.Some? ==>
                MayStage(lower, unmarshal, mappings, mode, templ, Kv.ExtractField(answer.data, field).value,
                  secret.value)
    {
      hide Marshal, MayStage;
      var data := Kv.ReadKv(answer);
      if data.Err? {
        return None;
      }
      var extracted := Kv.ExtractField(data.value, field);
      if extracted.Err? {
        return None;
      }
      secret := GetSecret(Some(extracted.value));
    }

    /** `writeFile`, inside the lock. */
    method WriteFile(secret: string, outcome: WriteOutcome) returns (ok: bool)
      modifies this
      ensures ok <==> outcome.Succeeded?
      ensures contents == match outcome
                          case OpenFailed => old(contents)
                          case WriteFailed(written) => if written < |secret| then secret[..written] else secret
                          case _ => secret
    {
      if outcome.OpenFailed? {
        return false;
      }
      contents := "";
      if outcome.WriteFailed? {
        contents := if outcome.written < |secret| then secret[..outcome.written] else secret;
        return false;
      }
      contents := secret;
      return outcome.Succeeded?;
    }

    /** `Refresh`: no error means the file holds a staged secret; a failed fetch leaves
        it untouched; whatever else happens it holds the front of a staged secret. */
    method Refresh(fetched: Option<string>, outcome: WriteOutcome) returns (ok: bool)
      modifies this
      ensures ok <==> fetched.Some? && outcome.Succeeded?
      ensures ok ==> MayStage(lower, unmarshal, mappings, mode, templ, fetched.value, contents)
      ensures fetched.None? || outcome.OpenFailed? ==> contents == old(contents)
      ensures fetched.Some? && !outcome.OpenFailed? ==>
                exists staged :: MayStage(lower, unmarshal, mappings, mode, templ, fetched.value, staged)
                  && contents <= staged
    {
      hide MayStage;
      var secret := GetSecret(fetched);
      if secret.None? {
        return false;
      }
      ok := WriteFile(secret.value, outcome);
    }
  }
}
