/**
 * File names a browser produces for repeated downloads, and names that only look like the
 * artifacts, decided by the file-name predicates of the renderer page.
 */
module RendererExamples {
  import opened Renderer

  lemma ExampleExactSchemaName()
    ensures IsArtifactName("schema.json", SchemaArtifact)
    ensures !IsArtifactName("schema.json", TemplateArtifact)
  {
    ArtifactNamesDisjoint("schema.json");
  }

  lemma ExampleSpacedCopy()
    ensures IsArtifactName("schema (2).json", SchemaArtifact)
  {
    var name := "schema (2).json";
    assert name[6..|name| - 5] == " (2)";
    assert SpaceRun(" (2)") == 1;
  }

  lemma ExampleUnspacedCopy()
    ensures IsArtifactName("schema(12).json", SchemaArtifact)
  {
    var name := "schema(12).json";
    assert name[6..|name| - 5] == "(12)";
    assert SpaceRun("(12)") == 0;
  }

  lemma ExampleTemplateCopy()
    ensures IsArtifactName("template (3).html", TemplateArtifact)
  {
    var name := "template (3).html";
    assert name[8..|name| - 5] == " (3)";
    assert SpaceRun(" (3)") == 1;
  }

  /** The counter needs at least one digit. */
  lemma ExampleEmptyCounter()
    ensures !IsArtifactName("schema ().json", SchemaArtifact)
  {
    var name := "schema ().json";
    assert name[6..|name| - 5] == " ()";
    assert SpaceRun(" ()") == 1;
  }

  /** The name must start with the stem. */
  lemma ExamplePrefixedName()
    ensures !IsArtifactName("old_schema.json", SchemaArtifact)
  {
    var name := "old_schema.json";
    assert name[..6][0] == 'o';
  }
}
