/** web/src/components/ScriptManagerView.js: the user-script manager. Its
    editor saves a script by replacing the edited one or appending a new,
    active one; the list itself deletes and toggles scripts by id. Every
    change hands the whole new list to `onSave`. */
module ScriptManager {
  import opened BrowserTypes
  import opened Lists

  /** The code a new script starts with. */
  function StarterCode(): string {
    "// اكتب كود جافا سكربت هنا\nconsole.log(\"Hello from UserScript\");"
  }

  /** The alert shown when the name or the code is missing. */
  function MissingFieldsMessage(): string {
    "الاسم والكود مطلوبان"
  }

  /** The edit of `saveScript`: the script with the edited id takes the new
      name, domain and code; everything else stays. */
  function EditScripts(scripts: seq<UserScript>, id: string, name: string, domain: string, code: string): (r: seq<UserScript>)
    ensures |r| == |scripts|
    ensures forall i :: 0 <= i < |r| && scripts[i].id == id ==>
              r[i].name == name && r[i].domain == domain && r[i].code == code
              && r[i].id == id && r[i].active == scripts[i].active && r[i].date == scripts[i].date
    ensures forall i :: 0 <= i < |r| && scripts[i].id != id ==> r[i] == scripts[i]
  {
    seq(|scripts|, i requires 0 <= i < |scripts| =>
      if scripts[i].id == id then scripts[i].(name := name, domain := domain, code := code) else scripts[i])
  }

  /** `deleteScript(id)` */
  function DeleteScript(scripts: seq<UserScript>, id: string): seq<UserScript> {
    Filter(scripts, (s: UserScript) => s.id != id)
  }

  /** `toggleScript(id)`: `active` flips on the scripts with that id. */
  function ToggleScript(scripts: seq<UserScript>, id: string): (r: seq<UserScript>)
    ensures |r| == |scripts|
    ensures forall i :: 0 <= i < |r| && scripts[i].id == id ==> r[i] == scripts[i].(active := !scripts[i].active)
    ensures forall i :: 0 <= i < |r| && scripts[i].id != id ==> r[i] == scripts[i]
  {
    seq(|scripts|, i requires 0 <= i < |scripts| =>
      if scripts[i].id == id then scripts[i].(active := !scripts[i].active) else scripts[i])
  }

  /** Toggling twice restores the list. */
  lemma ToggleTwice(scripts: seq<UserScript>, id: string)
    ensures ToggleScript(ToggleScript(scripts, id), id) == scripts
  {
    var once := ToggleScript(scripts, id);
    var twice := ToggleScript(once, id);
    forall i | 0 <= i < |scripts| ensures twice[i] == scripts[i] {
      if scripts[i].id == id {
        assert once[i].id == id;
      }
    }
  }

  /** Editing the same script twice is editing it once. */
  lemma EditIdempotent(scripts: seq<UserScript>, id: string, name: string, domain: string, code: string)
    ensures EditScripts(EditScripts(scripts, id, name, domain, code), id, name, domain, code)
            == EditScripts(scripts, id, name, domain, code)
  {
    var once := EditScripts(scripts, id, name, domain, code);
    var twice := EditScripts(once, id, name, domain, code);
    forall i | 0 <= i < |scripts| ensures twice[i] == once[i] {
      if scripts[i].id == id {
        assert once[i].id == id;
      }
    }
  }

  /** Exactly the scripts with another id remain, in their order; deleting
      again changes nothing, and deleting an id no script has keeps the
      list. */
  lemma DeleteScriptSound(scripts: seq<UserScript>, id: string, s: UserScript)
    ensures s in DeleteScript(scripts, id) <==> s in scripts && s.id != id
    ensures DeleteScript(DeleteScript(scripts, id), id) == DeleteScript(scripts, id)
    ensures (forall i :: 0 <= i < |scripts| ==> scripts[i].id != id) ==> DeleteScript(scripts, id) == scripts
  {
    var keep := (t: UserScript) => t.id != id;
    FilterMembers(scripts, keep, s);
    FilterIdempotent(scripts, keep);
    if forall i :: 0 <= i < |scripts| ==> scripts[i].id != id {
      FilterKeepsAll(scripts, keep);
    }
  }

  /** Deleting from a concatenation deletes from each part, so the survivors
      keep their relative order. */
  lemma DeleteKeepsOrder(a: seq<UserScript>, b: seq<UserScript>, id: string)
    ensures DeleteScript(a + b, id) == DeleteScript(a, id) + DeleteScript(b, id)
  {
    FilterConcat(a, b, (t: UserScript) => t.id != id);
  }

  /** The editor: `editingScript` (`null` when a new script is written), the
      form fields, and the lists handed to `onSave` and the alerts shown. */
  class ScriptEditor {
    var editingScript: Option<UserScript>
    var isEditorVisible: bool
    var name: string
    var domain: string
    var code: string
    var saved: seq<seq<UserScript>>
    var alerts: seq<string>

    constructor()
      ensures editingScript == None && !isEditorVisible
      ensures name == "" && domain == "*" && code == ""
      ensures saved == [] && alerts == []
    {
      editingScript := None;
      isEditorVisible := false;
      name := "";
      domain := "*";
      code := "";
      saved := [];
      alerts := [];
    }

    /** `openEditor(script)`: the script's fields, or an empty name, the
        domain `*` and the starter code. */
    method OpenEditor(script: Option<UserScript>)
      modifies this`editingScript, this`name, this`domain, this`code, this`isEditorVisible
      ensures editingScript == script && isEditorVisible
      ensures script.Some? ==> name == script.value.name && domain == script.value.domain && code == script.value.code
      ensures script.None? ==> name == "" && domain == "*" && code == StarterCode()
    {
      if script.Some? {
        editingScript := script;
        name := script.value.name;
        domain := script.value.domain;
        code := script.value.code;
      } else {
        editingScript := None;
        name := "";
        domain := "*";
        code := StarterCode();
      }
      isEditorVisible := true;
    }

    /** `saveScript`: a missing name or code only alerts. Otherwise the edited
        script is replaced, or a new active script with the drawn id and
        the current time is appended, and the editor closes. */
    method SaveScript(scripts: seq<UserScript>, newId: string, now: string)
      modifies this`saved, this`alerts, this`isEditorVisible
      ensures name == "" || code == "" ==>
                saved == old(saved) && alerts == old(alerts) + [MissingFieldsMessage()]
                && isEditorVisible == old(isEditorVisible)
      ensures name != "" && code != "" && editingScript.Some? ==>
                saved == old(saved) + [EditScripts(scripts, editingScript.value.id, name, domain, code)]
                && alerts == old(alerts) && !isEditorVisible
      ensures name != "" && code != "" && editingScript.None? ==>
                saved == old(saved) + [scripts + [UserScript(newId, name, domain, code, true, now)]]
                && alerts == old(alerts) && !isEditorVisible
    {
      if name == "" || code == "" {
        alerts := alerts + [MissingFieldsMessage()];
        return;
      }
      var newScripts := scripts;
      if editingScript.Some? {
        newScripts := EditScripts(newScripts, editingScript.value.id, name, domain, code);
      } else {
        newScripts := newScripts + [UserScript(newId, name, domain, code, true, now)];
      }
      saved := saved + [newScripts];
      isEditorVisible := false;
    }
  }
}
