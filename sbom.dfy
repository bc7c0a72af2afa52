/**
 * The parts of a CycloneDX bill of materials (as Trivy writes it with `-f cyclonedx`)
 * that the pipeline reads. A JSON key that may be absent is an `Option`; an absent list
 * is the empty sequence, which is what `.get(key, [])` yields.
 */
module Sbom {
  import opened Wrappers

  /** A rating's `score`: a JSON number, carried as the text `str()` gives it, or a JSON string. */
  datatype Score = Number(text: string) | Text(text: string) {

    /** Python truthiness of the value: a number is falsy when zero, a string when empty. */
    predicate Truthy() {
      match this
      case Number(t) => exists i :: 0 <= i < |t| && '1' <= t[i] <= '9'
      case Text(t) => t != ""
    }
  }

  datatype Rating = Rating(severity: Option<string>, score: Option<Score>)

  datatype VersionInfo = VersionInfo(status: Option<string>, version: Option<string>)

  datatype Affect = Affect(ref: Option<string>, versions: seq<VersionInfo>)

  datatype Advisory = Advisory(url: Option<string>)

  datatype Vulnerability = Vulnerability(
    id: Option<string>,
    ratings: seq<Rating>,
    description: Option<string>,
    affects: seq<Affect>,
    advisories: seq<Advisory>)

  /** A `components[]` entry; `kind` is the JSON `type` field. */
  datatype Component = Component(
    bomRef: Option<string>,
    name: Option<string>,
    version: Option<string>,
    kind: Option<string>,
    purl: Option<string>)

  datatype MetaComponent = MetaComponent(name: Option<string>)

  datatype Metadata = Metadata(component: Option<MetaComponent>)

  datatype Bom = Bom(
    metadata: Option<Metadata>,
    components: seq<Component>,
    vulnerabilities: seq<Vulnerability>)

  /** What reading an SBOM file gives: no such file, text that is not JSON, or a document. */
  datatype BomFile = NotFound | InvalidJson | Parsed(bom: Bom)
}
